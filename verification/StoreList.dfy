/** The doubly linked list behind the message store: db__msg_store_add, db__msg_store_remove and
    db__msg_store_compact of src/database.c, with their pointers. */
module StoreList {
  import opened MosqTypes

  /** The part of struct mosquitto_msg_store that the list needs */
  class Stored {
    const payloadLen: nat
    var refCount: int
    var next: Stored?
    var prev: Stored?

    constructor (payloadLen: nat)
      ensures this.payloadLen == payloadLen && refCount == 0
    {
      this.payloadLen, refCount, next, prev := payloadLen, 0, null, null;
    }
  }

  function At(nodes: seq<Stored>, k: int): Stored? {
    if 0 <= k < |nodes| then nodes[k] else null
  }

  predicate Distinct(nodes: seq<Stored>) {
    forall i, j :: 0 <= i < j < |nodes| ==> nodes[i] != nodes[j]
  }

  function Sum(nodes: seq<Stored>): nat {
    if nodes == [] then 0 else nodes[0].payloadLen + Sum(nodes[1..])
  }

  lemma WithoutIsDistinct(nodes: seq<Stored>, i: nat)
    requires i < |nodes| && Distinct(nodes)
    ensures Distinct(Without(nodes, i)) && nodes[i] !in Without(nodes, i)
  {
  }

  /** The neighbours of a node are no other nodes of the list. */
  lemma Apart(nodes: seq<Stored>, i: nat)
    requires i < |nodes| && Distinct(nodes)
    ensures forall k :: 0 <= k < |nodes| ==>
      && (nodes[k] == nodes[i] ==> k == i)
      && (0 < i && nodes[k] == nodes[i - 1] ==> k == i - 1)
      && (i + 1 < |nodes| && nodes[k] == nodes[i + 1] ==> k == i + 1)
  {
  }

  lemma AtWithout(nodes: seq<Stored>, i: nat, k: int)
    requires i < |nodes| && -1 <= k < |nodes|
    ensures At(Without(nodes, i), k) == if k < i then At(nodes, k) else At(nodes, k + 1)
  {
  }

  lemma {:induction false} SumWithout(nodes: seq<Stored>, i: nat)
    requires i < |nodes|
    ensures Sum(nodes) == Sum(Without(nodes, i)) + nodes[i].payloadLen
  {
    if i == 0 {
      assert Without(nodes, 0) == nodes[1..];
    } else {
      SumWithout(nodes[1..], i - 1);
      assert Without(nodes, i)[0] == nodes[0];
      assert Without(nodes, i)[1..] == Without(nodes[1..], i - 1);
    }
  }

  /** The reference counts of these messages */
  ghost function Counts(nodes: seq<Stored>): map<Stored, int>
    reads nodes
  {
    map s | s in nodes :: s.refCount
  }

  /** The messages that have a reference, in order */
  function Referenced(nodes: seq<Stored>, counts: map<Stored, int>): seq<Stored> {
    if nodes == [] then []
    else (if nodes[0] in counts && counts[nodes[0]] >= 1 then [nodes[0]] else []) + Referenced(nodes[1..], counts)
  }

  lemma {:induction false} ReferencedOneMore(nodes: seq<Stored>, node: Stored, counts: map<Stored, int>)
    ensures Referenced(nodes + [node], counts) ==
      Referenced(nodes, counts) + if node in counts && counts[node] >= 1 then [node] else []
  {
    if nodes == [] {
      assert nodes + [node] == [node] && [node][1..] == [];
      assert Referenced([node], counts) == (if node in counts && counts[node] >= 1 then [node] else []) + [];
    } else {
      assert (nodes + [node])[1..] == nodes[1..] + [node];
      ReferencedOneMore(nodes[1..], node, counts);
    }
  }

  /** The node at index k is linked to its neighbours. */
  ghost predicate LinkedAt(nodes: seq<Stored>, k: nat)
    requires k < |nodes|
    reads nodes
  {
    nodes[k].next == At(nodes, k + 1) && nodes[k].prev == At(nodes, k - 1)
  }

  /** The same, except that the neighbours of node i are linked to each other */
  ghost predicate Bridged(nodes: seq<Stored>, i: nat, k: nat)
    requires k < |nodes|
    reads nodes
  {
    && nodes[k].next == At(nodes, if k + 1 == i then i + 1 else k + 1)
    && nodes[k].prev == At(nodes, if k == i + 1 then i - 1 else k - 1)
  }

  /** When node i is passed over, the others make up a list. */
  lemma Relinked(was: seq<Stored>, i: nat)
    requires i < |was| && forall k :: 0 <= k < |was| && k != i ==> Bridged(was, i, k)
    ensures forall k :: 0 <= k < |Without(was, i)| ==> LinkedAt(Without(was, i), k)
  {
    forall k | 0 <= k < |Without(was, i)|
      ensures LinkedAt(Without(was, i), k)
    {
      assert Bridged(was, i, if k < i then k else k + 1);
      AtWithout(was, i, k - 1);
      AtWithout(was, i, k);
      AtWithout(was, i, k + 1);
    }
  }

  class MessageList {
    var head: Stored?
    var count: int
    var bytes: int
    ghost var nodes: seq<Stored>

    constructor ()
      ensures Valid() && nodes == []
    {
      head, count, bytes, nodes := null, 0, 0, [];
    }

    ghost predicate Linked()
      reads this, nodes
    {
      head == At(nodes, 0) && Distinct(nodes) && forall k :: 0 <= k < |nodes| ==> LinkedAt(nodes, k)
    }

    /** The pointers are those of the list, and the counters those of its messages. */
    ghost predicate Valid()
      reads this, nodes
    {
      Linked() && count == |nodes| && bytes == Sum(nodes)
    }

    /** db__msg_store_add, with the counting that db__message_store does beside it */
    method Add(store: Stored)
      requires Valid() && store !in nodes
      modifies this, store, head
      ensures Valid() && nodes == [store] + old(nodes) && store.refCount == old(store.refCount)
      ensures forall s <- old(nodes) :: s.refCount == old(s.refCount)
    {
      store.next := head;
      store.prev := null;
      if head != null {
        head.prev := store;
      }
      head := store;
      count := count + 1;
      bytes := bytes + store.payloadLen;
      ghost var was := nodes;
      nodes := [store] + nodes;
      assert nodes[1..] == was;
      forall k | 0 <= k < |nodes|
        ensures LinkedAt(nodes, k)
      {
        if k > 0 {
          assert nodes[k] == was[k - 1] && old(LinkedAt(was, k - 1));
        }
      }
    }

    /** The pointers of db__msg_store_remove */
    method Unlink(store: Stored, ghost i: nat)
      requires Linked() && i < |nodes| && nodes[i] == store
      modifies `head, `nodes, store.prev, store.next
      ensures Linked() && nodes == Without(old(nodes), i)
      ensures forall s <- old(nodes) :: s.refCount == old(s.refCount)
    {
      hide Distinct, Without;
      ghost var was := nodes;
      WithoutIsDistinct(nodes, i);
      Apart(was, i);
      assert LinkedAt(was, i);
      if store.prev != null {
        store.prev.next := store.next;
        if store.next != null {
          store.next.prev := store.prev;
        }
      } else {
        head := store.next;
        if store.next != null {
          store.next.prev := null;
        }
      }
      AtWithout(was, i, 0);
      forall k | 0 <= k < |was| && k != i
        ensures Bridged(was, i, k)
      {
        assert old(LinkedAt(was, k));
      }
      Relinked(was, i);
      nodes := Without(nodes, i);
    }

    /** db__msg_store_remove */
    method Remove(store: Stored, ghost i: nat)
      requires Valid() && i < |nodes| && nodes[i] == store
      modifies this, store.prev, store.next
      ensures Valid() && nodes == Without(old(nodes), i)
      ensures forall s <- old(nodes) :: s.refCount == old(s.refCount)
    {
      SumWithout(nodes, i);
      Unlink(store, i);
      count := count - 1;
      bytes := bytes - store.payloadLen;
    }

    lemma InList(k: nat)
      requires Linked() && k < |nodes|
      ensures nodes[k].next == At(nodes, k + 1) && nodes[k].prev == At(nodes, k - 1)
    {
      assert LinkedAt(nodes, k);
    }

    /** db__msg_store_compact: whatever has no reference left goes, everything else stays in order. */
    method Compact()
      requires Valid()
      modifies this, nodes
      ensures Valid() && nodes == Referenced(old(nodes), old(Counts(nodes)))
      ensures forall s <- old(nodes) :: s.refCount == old(s.refCount)
    {
      hide Distinct, Linked, Sum, Referenced;
      ghost var all, counts := nodes, Counts(nodes);
      ghost var i, j := 0, 0;
      assert Referenced(all[..0], counts) == [] by {
        NoneReferenced(counts);
      }
      assert nodes[0..] == all[0..] && nodes[..0] == [];
      var store := head;
      HeadOfList();
      while store != null
        invariant Valid() && i <= |all| && j <= |nodes|
        invariant forall s <- all :: s in counts && s.refCount == counts[s]
        invariant forall s <- nodes :: s in all
        invariant nodes[..j] == Referenced(all[..i], counts) && nodes[j..] == all[i..]
        invariant store == At(nodes, j)
        decreases |all| - i
      {
        InList(j);
        var next := store.next;
        assert all[i] == all[i..][0] == nodes[j..][0] == store;
        assert all[..i + 1] == all[..i] + [store];
        ReferencedOneMore(all[..i], store, counts);
        assert nodes[j + 1..] == nodes[j..][1..] == all[i..][1..] == all[i + 1..];
        ghost var was := nodes;
        assert store.prev != null ==> store.prev in all;
        assert store.next != null ==> store.next in all;
        if store.refCount < 1 {
          Remove(store, j);
          assert nodes[..j] == was[..j] && nodes[j..] == was[j + 1..];
        } else {
          assert nodes[..j + 1] == nodes[..j] + [store];
          j := j + 1;
        }
        i := i + 1;
        store := next;
      }
      assert nodes[..j] == nodes && all[..i] == all;
    }

    lemma HeadOfList()
      requires Linked()
      ensures head == At(nodes, 0)
    {
    }
  }

  lemma NoneReferenced(counts: map<Stored, int>)
    ensures Referenced([], counts) == []
  {
  }
}
