/** The hash table as the source keeps it: circular chains of nodes, each with a sentinel, linked
    in both directions and relinked in place. */
module AssocNodes {
  import opened Common
  import opened AssocTables

  class Assoc {
    var next: Assoc
    var prev: Assoc
    var key: nat
    var data: int

    constructor (key: nat, data: int)
      ensures this.key == key && this.data == data && next == this && prev == this
    {
      this.key, this.data := key, data;
      next, prev := this, this;
    }
  }

  function Succ(i: nat, n: nat): nat { if i + 1 == n then 0 else i + 1 }

  function Pred(i: nat, n: nat): nat
    requires n > 0
  {
    if i == 0 then n - 1 else i - 1
  }

  ghost predicate Distinct(ring: seq<Assoc>) {
    forall i, j :: 0 <= i < j < |ring| ==> ring[i] != ring[j]
  }

  ghost predicate Linked(ring: seq<Assoc>, i: nat)
    requires i < |ring|
    reads ring
  {
    ring[i].next == ring[Succ(i, |ring|)] && ring[i].prev == ring[Pred(i, |ring|)]
  }

  /** The nodes of a chain in order, the sentinel first. */
  ghost predicate IsRing(ring: seq<Assoc>)
    reads ring
  {
    ring != [] && Distinct(ring) && forall i :: 0 <= i < |ring| ==> Linked(ring, i)
  }

  ghost function Entries(ring: seq<Assoc>): (es: seq<Entry>)
    reads ring
    requires ring != []
    ensures |es| == |ring| - 1 && forall i :: 0 <= i < |es| ==> es[i] == Entry(ring[i + 1].key, ring[i + 1].data)
  {
    seq(|ring| - 1, i requires 0 <= i < |ring| - 1 reads ring => Entry(ring[i + 1].key, ring[i + 1].data))
  }

  /** The node after which a search stops, and what it stops at: the sentinel or the first entry
      that is not below the key. */
  method Search(bucket: Assoc, key: nat, ghost ring: seq<Assoc>) returns (entry: Assoc, ghost at: nat)
    requires IsRing(ring) && ring[0] == bucket
    ensures at == Stop(Entries(ring), key) && entry == ring[Succ(at, |ring|)]
  {
    entry, at := bucket.next, 0;
    assert Linked(ring, 0);
    while entry != bucket
      invariant 0 <= at < |ring| && entry == ring[Succ(at, |ring|)]
      invariant forall i :: 0 <= i < at ==> Entries(ring)[i].key < key
      decreases |ring| - at
    {
      assert Entries(ring)[at].key == entry.key;
      if entry.key >= key {
        StopIs(Entries(ring), key, at);
        return;
      }
      entry, at := entry.next, at + 1;
      assert Linked(ring, at);
    }
    StopIs(Entries(ring), key, at);
  }

  method Insque(elem: Assoc, prev: Assoc)
    requires elem != prev && elem != prev.next
    modifies elem, prev, prev.next
    ensures elem.next == old(prev.next) && elem.prev == prev
    ensures prev.next == elem && old(prev.next).prev == elem
    ensures prev.prev == if old(prev.next) == prev then elem else old(prev.prev)
    ensures old(prev.next) != prev ==> old(prev.next).next == old(prev.next.next)
    ensures elem.key == old(elem.key) && elem.data == old(elem.data)
    ensures prev.key == old(prev.key) && prev.data == old(prev.data)
    ensures old(prev.next).key == old(prev.next.key) && old(prev.next).data == old(prev.next.data)
  {
    var next := prev.next;
    prev.next := elem;
    next.prev := elem;
    elem.next := next;
    elem.prev := prev;
  }

  method Remque(elem: Assoc)
    requires elem.next != elem && elem.prev != elem
    modifies elem.next, elem.prev
    ensures old(elem.next).prev == old(elem.prev) && old(elem.prev).next == old(elem.next)
    ensures old(elem.next) != old(elem.prev) ==>
      old(elem.next).next == old(elem.next.next) && old(elem.prev).prev == old(elem.prev.prev)
    ensures old(elem.next).key == old(elem.next.key) && old(elem.next).data == old(elem.next.data)
    ensures old(elem.prev).key == old(elem.prev.key) && old(elem.prev).data == old(elem.prev.data)
  {
    var next, prev := elem.next, elem.prev;
    next.prev := prev;
    prev.next := next;
  }

  /** The data of no node has changed. */
  twostate predicate SameData(ring: seq<Assoc>)
    reads ring
  {
    forall x :: x in ring ==> x.key == old(x.key) && x.data == old(x.data)
  }

  lemma InsertDistinct(ring: seq<Assoc>, r: nat, node: Assoc, more: seq<Assoc>)
    requires Distinct(ring) && r < |ring| && node !in ring && more == ring[..r + 1] + [node] + ring[r + 1..]
    ensures Distinct(more)
  {
  }

  twostate lemma InsertedRing(ring: seq<Assoc>, new r: nat, new node: Assoc, new more: seq<Assoc>)
    requires old(IsRing(ring)) && r < |ring| && node !in ring && more == ring[..r + 1] + [node] + ring[r + 1..]
    requires node.next == old(ring[r].next) && node.prev == ring[r]
    requires ring[r].next == node && old(ring[r].next).prev == node
    requires forall x :: x in ring && x != ring[r] ==> x.next == old(x.next)
    requires forall x :: x in ring && x != old(ring[r].next) ==> x.prev == old(x.prev)
    ensures IsRing(more)
  {
    InsertDistinct(ring, r, node, more);
    var n := |ring|;
    assert old(Linked(ring, r));
    forall i | 0 <= i < |more|
      ensures Linked(more, i)
    {
      if i <= r {
        assert old(Linked(ring, i)) && more[i] == ring[i];
      } else if i > r + 1 {
        assert old(Linked(ring, i - 1)) && more[i] == ring[i - 1];
      }
    }
  }

  twostate lemma InsertedEntries(ring: seq<Assoc>, new r: nat, new node: Assoc, new more: seq<Assoc>)
    requires r < |ring| && more == ring[..r + 1] + [node] + ring[r + 1..] && SameData(ring)
    ensures Entries(more) == Put(old(Entries(ring)), r, Entry(node.key, node.data))
  {
  }

  /** Inserting a node after the one at r gives a ring with it in that place. */
  method InsertAfter(ghost ring: seq<Assoc>, ghost r: nat, prev: Assoc, node: Assoc) returns (ghost more: seq<Assoc>)
    requires IsRing(ring) && r < |ring| && prev == ring[r] && node !in ring
    modifies ring, node
    ensures more == ring[..r + 1] + [node] + ring[r + 1..] && IsRing(more)
    ensures Entries(more) == Put(old(Entries(ring)), r, old(Entry(node.key, node.data)))
  {
    more := ring[..r + 1] + [node] + ring[r + 1..];
    assert Linked(ring, r);
    assert Linked(ring, Succ(r, |ring|));
    Insque(node, prev);
    InsertedRing(ring, r, node, more);
    InsertedEntries(ring, r, node, more);
  }

  lemma RemoveDistinct(ring: seq<Assoc>, r: nat, fewer: seq<Assoc>)
    requires Distinct(ring) && 0 < r < |ring| && fewer == ring[..r] + ring[r + 1..]
    ensures Distinct(fewer)
  {
  }

  twostate lemma RemovedRing(ring: seq<Assoc>, new r: nat, new fewer: seq<Assoc>)
    requires old(IsRing(ring)) && 0 < r < |ring| && fewer == ring[..r] + ring[r + 1..]
    requires old(ring[r].next).prev == old(ring[r].prev) && old(ring[r].prev).next == old(ring[r].next)
    requires forall x :: x in ring && x != old(ring[r].prev) ==> x.next == old(x.next)
    requires forall x :: x in ring && x != old(ring[r].next) ==> x.prev == old(x.prev)
    ensures IsRing(fewer)
  {
    RemoveDistinct(ring, r, fewer);
    assert old(Linked(ring, r));
    forall i | 0 <= i < |fewer|
      ensures Linked(fewer, i)
    {
      var k := if i < r then i else i + 1;
      assert old(Linked(ring, k)) && fewer[i] == ring[k];
    }
  }

  twostate lemma RemovedEntries(ring: seq<Assoc>, new r: nat, new fewer: seq<Assoc>)
    requires 0 < r < |ring| && fewer == ring[..r] + ring[r + 1..] && SameData(ring)
    ensures Entries(fewer) == Take(old(Entries(ring)), r - 1)
  {
  }

  /** Removing the node at r, which is not the sentinel, gives a ring without it. */
  method RemoveAt(ghost ring: seq<Assoc>, ghost r: nat, node: Assoc) returns (ghost fewer: seq<Assoc>)
    requires IsRing(ring) && 0 < r < |ring| && node == ring[r]
    modifies ring
    ensures fewer == ring[..r] + ring[r + 1..] && IsRing(fewer)
    ensures Entries(fewer) == Take(old(Entries(ring)), r - 1)
  {
    fewer := ring[..r] + ring[r + 1..];
    assert Linked(ring, r) && Linked(ring, Succ(r, |ring|)) && Linked(ring, Pred(r, |ring|));
    Remque(node);
    RemovedRing(ring, r, fewer);
    RemovedEntries(ring, r, fewer);
  }

  // ----- the chain of a bucket -----

  method SetData(ghost ring: seq<Assoc>, ghost r: nat, node: Assoc, data: int)
    requires IsRing(ring) && 0 < r < |ring| && node == ring[r]
    modifies node`data
    ensures IsRing(ring) && Entries(ring) == old(Entries(ring)[r - 1 := Entry(node.key, data)])
  {
    node.data := data;
    forall i | 0 <= i < |ring|
      ensures Linked(ring, i)
    {
      assert old(Linked(ring, i));
    }
  }

  method LookUpIn(bucket: Assoc, key: nat, ghost ring: seq<Assoc>) returns (found: Option<int>)
    requires IsRing(ring) && ring[0] == bucket
    ensures found == LookUp(Entries(ring), key)
  {
    var entry, at := Search(bucket, key, ring);
    if entry != bucket && entry.key == key {
      return Some(entry.data);
    }
    return None;
  }

  method MakeIn(bucket: Assoc, key: nat, data: int, ghost ring: seq<Assoc>) returns (ghost more: seq<Assoc>)
    requires IsRing(ring) && ring[0] == bucket
    modifies ring
    ensures IsRing(more) && more[0] == bucket && Entries(more) == Make(old(Entries(ring)), key, data)
    ensures forall x :: x in more ==> x in ring || fresh(x)
  {
    ghost var es := Entries(ring);
    var entry, at := Search(bucket, key, ring);
    if entry != bucket && entry.key == key {
      SetData(ring, at + 1, entry, data);
      more := ring;
    } else {
      assert Linked(ring, Succ(at, |ring|));
      var node := new Assoc(key, data);
      assert Entries(ring) == es && IsRing(ring);
      more := InsertAfter(ring, at, entry.prev, node);
    }
  }

  method DeleteIn(bucket: Assoc, key: nat, ghost ring: seq<Assoc>) returns (ghost fewer: seq<Assoc>)
    requires IsRing(ring) && ring[0] == bucket
    modifies ring
    ensures IsRing(fewer) && fewer[0] == bucket && Entries(fewer) == Delete(old(Entries(ring)), key)
    ensures forall x :: x in fewer ==> x in ring
  {
    ghost var es := Entries(ring);
    var entry, at := Search(bucket, key, ring);
    if entry != bucket && entry.key == key {
      fewer := RemoveAt(ring, at + 1, entry);
    } else {
      fewer := ring;
    }
  }

  // ----- the table -----

  ghost function Nodes(ring: seq<Assoc>): set<Assoc> {
    set x | x in ring
  }

  class AssocTable {
    const buckets: array<Assoc>
    ghost var rings: seq<seq<Assoc>>
    ghost var Repr: set<Assoc>

    ghost predicate Valid()
      reads this, buckets, Repr
    {
      && |rings| == buckets.Length > 0
      && (forall b :: 0 <= b < |rings| ==> RingOK(b))
      && (forall b, c, x :: 0 <= b < c < |rings| && x in rings[b] ==> x !in rings[c])
    }

    ghost predicate RingOK(b: nat)
      requires b < |rings| == buckets.Length
      reads this, buckets, Repr
    {
      (forall x :: x in rings[b] ==> x in Repr) && IsRing(rings[b]) && rings[b][0] == buckets[b]
    }

    ghost function Value(): (t: Table)
      requires Valid()
      reads this, buckets, Repr
      ensures |t| == |rings| && forall b :: 0 <= b < |t| ==> RingOK(b) && t[b] == Entries(rings[b])
    {
      assert forall b :: 0 <= b < |rings| ==> RingOK(b);
      seq(|rings|, b requires 0 <= b < |rings| && Valid() && RingOK(b) reads this, buckets, Repr => Entries(rings[b]))
    }

    constructor (size: nat)
      requires size > 0
      ensures Valid() && fresh(Repr) && fresh(buckets) && Value() == Empty(size)
    {
      var first := new Assoc(0, 0);
      var bs := new Assoc[size](_ => first);
      ghost var rs: seq<seq<Assoc>> := [];
      ghost var all: set<Assoc> := {first};
      var i := 0;
      while i < size
        invariant 0 <= i <= size && |rs| == i
        invariant fresh(bs) && fresh(all)
        invariant forall b :: 0 <= b < i ==> rs[b] == [bs[b]] && bs[b] in all && bs[b].next == bs[b] == bs[b].prev
        invariant forall b, c :: 0 <= b < c < i ==> bs[b] != bs[c]
      {
        var node := new Assoc(0, 0);
        bs[i] := node;
        rs, all := rs + [[node]], all + {node};
        i := i + 1;
      }
      buckets, rings, Repr := bs, rs, all;
      new;
      assert forall b :: 0 <= b < size ==> RingOK(b);
    }

    method LookUpAssoc(key: nat) returns (found: Option<int>)
      requires Valid()
      ensures found == Find(Value(), key)
    {
      var hash := key % buckets.Length;
      assert RingOK(hash);
      found := LookUpIn(buckets[hash], key, rings[hash]);
    }

    /** Changing one chain leaves the others alone. */
    twostate lemma OthersKept(new hash: nat, new ring: seq<Assoc>)
      requires old(Valid()) && hash < |old(rings)| && unchanged(buckets)
      requires rings == old(rings)[hash := ring] && old(Repr) <= Repr
      requires IsRing(ring) && ring[0] == buckets[hash]
      requires forall x :: x in ring ==> x in Repr && (x in old(rings)[hash] || !old(allocated(x)))
      requires unchanged(set x | x in old(Repr) && x !in old(rings)[hash])
      ensures Valid() && Value() == old(Value())[hash := Entries(ring)]
    {
      forall b | 0 <= b < |rings| && b != hash
        ensures RingOK(b) && Entries(rings[b]) == old(Entries(rings[b]))
      {
        assert old(RingOK(b));
        forall x | x in rings[b]
          ensures x in old(Repr) && x !in old(rings)[hash]
        {
        }
        forall i | 0 <= i < |rings[b]|
          ensures Linked(rings[b], i)
        {
          assert old(Linked(rings[b], i));
        }
      }
      assert RingOK(hash);
    }

    method MakeAssoc(key: nat, data: int)
      requires Valid()
      modifies this, Repr
      ensures Valid() && fresh(Repr - old(Repr)) && Value() == Do(old(Value()), Associate(key, data))
    {
      var hash := key % buckets.Length;
      assert RingOK(hash);
      ghost var ring := MakeIn(buckets[hash], key, data, rings[hash]);
      rings := rings[hash := ring];
      Repr := Repr + Nodes(ring);
      OthersKept(hash, ring);
    }

    method DeleteAssoc(key: nat)
      requires Valid()
      modifies this, Repr
      ensures Valid() && fresh(Repr - old(Repr)) && Value() == Do(old(Value()), Forget(key))
    {
      var hash := key % buckets.Length;
      assert RingOK(hash);
      ghost var ring := DeleteIn(buckets[hash], key, rings[hash]);
      rings := rings[hash := ring];
      OthersKept(hash, ring);
    }
  }
}
