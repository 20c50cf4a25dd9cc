/** The loop of handle__publish (src/handle_publish.c) that takes the properties that go on with the message out of
    the list it was sent with, by relinking the nodes. */
module PropertySplit {
  import opened MosqTypes
  import opened Wire
  import opened Properties
  import opened Connect
  import opened Publish
  import ConnectIO

  /** struct mqtt5__property; only the link changes. */
  class Node {
    const property: Property
    var next: Node?

    constructor (property: Property, next: Node?)
      ensures this.property == property && this.next == next
    {
      this.property, this.next := property, next;
    }
  }

  predicate Distinct(nodes: seq<Node>) {
    forall i, j :: 0 <= i < j < |nodes| ==> nodes[i] != nodes[j]
  }

  function First(nodes: seq<Node>): Node? {
    if nodes == [] then null else nodes[0]
  }

  function Last(nodes: seq<Node>): Node? {
    if nodes == [] then null else nodes[|nodes| - 1]
  }

  /** The node behind the one at index k */
  function Following(nodes: seq<Node>, k: nat, end: Node?): Node?
    requires k < |nodes|
  {
    if k + 1 < |nodes| then nodes[k + 1] else end
  }

  /** Each node links to the next one, and the last one to end. */
  ghost predicate Linked(nodes: seq<Node>, end: Node?)
    reads nodes
  {
    forall k :: 0 <= k < |nodes| ==> nodes[k].next == Following(nodes, k, end)
  }

  /** A list that starts at head and consists of these nodes, none of them twice */
  ghost predicate IsList(head: Node?, nodes: seq<Node>)
    reads nodes
  {
    head == First(nodes) && Distinct(nodes) && Linked(nodes, null)
  }

  function Values(nodes: seq<Node>): seq<Property> {
    seq(|nodes|, k requires 0 <= k < |nodes| => nodes[k].property)
  }

  /** The nodes that go on with the message, or those that stay, in order */
  function Chosen(nodes: seq<Node>, forward: bool): seq<Node> {
    if nodes == [] then []
    else (if Forwardable(nodes[0].property.identifier) == forward then [nodes[0]] else []) + Chosen(nodes[1..], forward)
  }

  lemma {:induction false} ChosenOneMore(nodes: seq<Node>, node: Node, forward: bool)
    ensures Chosen(nodes + [node], forward) ==
      Chosen(nodes, forward) + if Forwardable(node.property.identifier) == forward then [node] else []
  {
    hide Forwardable;
    if nodes == [] {
      assert nodes + [node] == [node] && [node][1..] == [];
      assert Chosen([node], forward) == (if Forwardable(node.property.identifier) == forward then [node] else []) + [];
    } else {
      assert (nodes + [node])[1..] == nodes[1..] + [node];
      ChosenOneMore(nodes[1..], node, forward);
    }
  }

  lemma {:induction false} ChosenAmong(nodes: seq<Node>, forward: bool)
    requires Distinct(nodes)
    ensures var c := Chosen(nodes, forward);
      && Distinct(c) && |c| <= |nodes|
      && forall k :: 0 <= k < |c| ==> c[k] in nodes && Forwardable(c[k].property.identifier) == forward
  {
    hide Forwardable;
    if nodes != [] {
      var rest := nodes[1..];
      assert forall k :: 0 <= k < |rest| ==> rest[k] == nodes[k + 1];
      ChosenAmong(rest, forward);
      var c := Chosen(rest, forward);
      assert forall k :: 0 <= k < |c| ==> c[k] in nodes && c[k] != nodes[0];
    }
  }

  /** No node is lost or counted twice. */
  lemma {:induction false} NothingLost(nodes: seq<Node>)
    ensures multiset(Chosen(nodes, true)) + multiset(Chosen(nodes, false)) == multiset(nodes)
  {
    hide Forwardable;
    if nodes != [] {
      NothingLost(nodes[1..]);
      assert nodes == [nodes[0]] + nodes[1..];
    }
  }

  /** The values of the nodes taken are the filtered values. */
  lemma {:induction false} ValuesOfChosen(nodes: seq<Node>)
    ensures Values(Chosen(nodes, true)) == Filtered(Values(nodes))
  {
    hide Forwardable;
    if nodes != [] {
      ValuesOfChosen(nodes[1..]);
      assert Values(nodes)[1..] == Values(nodes[1..]);
      var tail := Chosen(nodes[1..], true);
      if Forwardable(nodes[0].property.identifier) {
        assert Values([nodes[0]] + tail) == [nodes[0].property] + Values(tail);
      } else {
        assert [] + tail == tail && [] + Filtered(Values(nodes[1..])) == Filtered(Values(nodes[1..]));
      }
    }
  }

  /** The default case of the switch is never taken: property__read_all has checked the list for CMD_PUBLISH. */
  lemma NoOtherProperty(ps: seq<Property>, i: nat)
    requires i < |ps| && Accepted(CMD_PUBLISH, ps)
    ensures Forwardable(ps[i].identifier) || ps[i].identifier in {TOPIC_ALIAS, MESSAGE_EXPIRY_INTERVAL, SUBSCRIPTION_IDENTIFIER}
  {
    assert CheckCommand(CMD_PUBLISH, ps[i].identifier) == Success;
  }

  /** The state of the loop after i nodes of the original list */
  ghost predicate Progress(all: seq<Node>, i: nat, p: Node?, prev: Node?, properties: Node?, taken: Node?, takenLast: Node?)
    requires i <= |all|
    reads all, Chosen(all[..i], false), Chosen(all[..i], true)
  {
    var kept, chosen, rest := Chosen(all[..i], false), Chosen(all[..i], true), all[i..];
    && p == First(rest) && prev == Last(kept) && properties == (if kept == [] then p else kept[0])
    && taken == First(chosen) && takenLast == Last(chosen)
    && Linked(kept, p) && Linked(rest, null) && Linked(chosen, null)
  }

  /** What is apart before node i is handled */
  lemma Apart(all: seq<Node>, i: nat)
    requires i < |all| && Distinct(all)
    ensures var kept, chosen, rest := Chosen(all[..i], false), Chosen(all[..i], true), all[i + 1..];
      && Distinct(kept) && Distinct(chosen) && Distinct(rest)
      && (forall k :: 0 <= k < |kept| ==> kept[k] in all && kept[k] != all[i] && kept[k] !in chosen && kept[k] !in rest)
      && (forall k :: 0 <= k < |chosen| ==> chosen[k] in all && chosen[k] != all[i] && chosen[k] !in rest)
      && (forall k :: 0 <= k < |rest| ==> rest[k] in all && rest[k] != all[i])
  {
    hide Forwardable, Chosen;
    ChosenAmong(all[..i], false);
    ChosenAmong(all[..i], true);
  }

  lemma LinkedTail(nodes: seq<Node>, end: Node?)
    requires nodes != [] && Linked(nodes, end)
    ensures nodes[0].next == (if |nodes| > 1 then nodes[1] else end) && Linked(nodes[1..], end)
  {
    assert forall k :: 0 <= k < |nodes[1..]| ==> nodes[1..][k] == nodes[k + 1];
  }

  /** The last node of a list is linked to something else. */
  method Relink(ghost nodes: seq<Node>, ghost end: Node?, last: Node, to: Node?)
    requires nodes != [] && last == Last(nodes) && Distinct(nodes) && Linked(nodes, end)
    modifies last`next
    ensures Linked(nodes, to) && last.next == to
  {
    last.next := to;
  }

  /** The branch for a property that goes on with the message */
  method Take(ghost all: seq<Node>, ghost i: nat, p: Node, prev: Node?, properties: Node?, taken: Node?, takenLast: Node?)
    returns (p': Node?, properties': Node?, taken': Node?, takenLast': Node?)
    requires i < |all| && Distinct(all) && p == all[i] && Progress(all, i, p, prev, properties, taken, takenLast)
    requires Forwardable(p.property.identifier)
    modifies all
    ensures Progress(all, i + 1, p', prev, properties', taken', takenLast')
  {
    hide Forwardable, Chosen, Linked, Distinct;
    properties' := properties;
    ghost var kept, chosen, rest := Chosen(all[..i], false), Chosen(all[..i], true), all[i + 1..];
    LinkedTail(all[i..], null);
    assert all[i..][1..] == rest;
    assert all[..i + 1] == all[..i] + [p];
    ChosenOneMore(all[..i], p, true);
    ChosenOneMore(all[..i], p, false);
    Apart(all, i);
    if taken != null {
      Relink(chosen, null, takenLast, p);
      taken', takenLast' := taken, p;
    } else {
      taken', takenLast' := p, p;
      NothingLinked(chosen, p);
    }
    if prev != null {
      Relink(kept, p, prev, p.next);
      p' := prev.next;
    } else {
      properties' := p.next;
      p' := properties';
      NothingLinked(kept, p');
    }
    takenLast'.next := null;
    LinkedOneMore(chosen, p);
    assert kept + [] == kept;
  }

  lemma NothingLinked(nodes: seq<Node>, end: Node?)
    requires nodes == []
    ensures Linked(nodes, end)
  {
  }

  lemma LinkedOneMore(nodes: seq<Node>, node: Node)
    requires Linked(nodes, node) && node.next == null
    ensures Linked(nodes + [node], null)
  {
    assert forall k :: 0 <= k < |nodes| ==> (nodes + [node])[k] == nodes[k];
  }

  /** The other branches: the node stays, and the next one is looked at. */
  lemma Keep(all: seq<Node>, i: nat, p: Node, prev: Node?, properties: Node?, taken: Node?, takenLast: Node?)
    requires i < |all| && p == all[i] && Progress(all, i, p, prev, properties, taken, takenLast)
    requires !Forwardable(p.property.identifier)
    ensures Progress(all, i + 1, p.next, p, properties, taken, takenLast)
  {
    hide Forwardable, Chosen, Linked;
    LinkedTail(all[i..], null);
    assert all[i..][1..] == all[i + 1..];
    assert all[..i + 1] == all[..i] + [p];
    ChosenOneMore(all[..i], p, true);
    ChosenOneMore(all[..i], p, false);
    var kept, chosen := Chosen(all[..i], false), Chosen(all[..i], true);
    LinkedOneOn(kept, p);
    assert chosen + [] == chosen;
  }

  lemma LinkedOneOn(nodes: seq<Node>, node: Node)
    requires Linked(nodes, node)
    ensures Linked(nodes + [node], node.next)
  {
    assert forall k :: 0 <= k < |nodes| ==> (nodes + [node])[k] == nodes[k];
  }

  lemma AtStart(head: Node?, all: seq<Node>)
    requires IsList(head, all)
    ensures Progress(all, 0, head, null, head, null, null)
  {
    assert all[..0] == [] && all[0..] == all;
  }

  lemma ValueKinds(ps: seq<Property>, i: nat)
    requires i < |ps| && AllTyped(ps)
    ensures ps[i].identifier == MESSAGE_EXPIRY_INTERVAL ==> ps[i].value.I32?
    ensures ps[i].identifier == TOPIC_ALIAS ==> ps[i].value.I16?
  {
    assert Typed(ps[i]);
  }

  lemma {:induction false} AliasOneMore(ps: seq<Property>, p: Property, otherwise: int)
    ensures AliasOf(ps + [p], otherwise) ==
      if p.identifier == TOPIC_ALIAS && p.value.I16? then p.value.word else AliasOf(ps, otherwise)
    decreases |ps|
  {
    if ps == [] {
      assert ps + [p] == [p] && [p][1..] == [];
    } else {
      AliasOneMore(ps[1..], p, if ps[0].identifier == TOPIC_ALIAS && ps[0].value.I16? then ps[0].value.word else otherwise);
      assert (ps + [p])[1..] == ps[1..] + [p];
    }
  }

  /** The loop. The list is cut into two, in order and without loss: the nodes whose properties go on with the message,
      and the others; and the values that are used here are found. */
  method Split(head: Node?, ghost all: seq<Node>) returns (properties: Node?, taken: Node?, alias: int, expiry: Dword)
    requires IsList(head, all) && AllTyped(Values(all)) && Accepted(CMD_PUBLISH, Values(all))
    modifies all
    ensures IsList(properties, Chosen(all, false)) && IsList(taken, Chosen(all, true))
    ensures Values(Chosen(all, true)) == Filtered(Values(all))
    ensures multiset(Chosen(all, true)) + multiset(Chosen(all, false)) == multiset(all)
    ensures alias == AliasOf(Values(all), -1) && expiry == LastDword(Values(all), MESSAGE_EXPIRY_INTERVAL, 0)
  {
    hide Progress, Chosen, AllTyped, Accepted, Filtered, AliasOf, LastDword, Forwardable, Linked;
    AtStart(head, all);
    ghost var values := Values(all);
    ghost var i := 0;
    var p, prev: Node?, takenLast: Node? := head, null, null;
    properties, taken, alias, expiry := head, null, -1, 0;
    ConnectIO.NothingFiltered(values[..0]);
    NoAlias();
    while p != null
      invariant i <= |all| && Progress(all, i, p, prev, properties, taken, takenLast)
      invariant (p == null) == (i == |all|) && (p != null ==> p == all[i])
      invariant alias == AliasOf(values[..i], -1) && expiry == LastDword(values[..i], MESSAGE_EXPIRY_INTERVAL, 0)
      decreases |all| - i
    {
      assert p.property == values[i];
      NoOtherProperty(values, i);
      ValueKinds(values, i);
      assert values[..i + 1] == values[..i] + [values[i]];
      AliasOneMore(values[..i], values[i], -1);
      ConnectIO.LastDwordOneMore(values[..i], values[i], MESSAGE_EXPIRY_INTERVAL, 0);
      ForwardableIsNeither(p.property.identifier);
      if Forwardable(p.property.identifier) {
        p, properties, taken, takenLast := Take(all, i, p, prev, properties, taken, takenLast);
      } else {
        Keep(all, i, p, prev, properties, taken, takenLast);
        if p.property.identifier == TOPIC_ALIAS {
          alias := p.property.value.word;
          prev := p;
        } else if p.property.identifier == MESSAGE_EXPIRY_INTERVAL {
          expiry := p.property.value.dword;
          prev := p;
        } else if p.property.identifier == SUBSCRIPTION_IDENTIFIER {
          prev := p;
        }
        p := p.next;
      }
      i := i + 1;
      AtNode(all, i, p, prev, properties, taken, takenLast);
    }
    AtEnd(all, p, prev, properties, taken, takenLast);
    assert values[..i] == values;
    ValuesOfChosen(all);
    NothingLost(all);
  }

  lemma ForwardableIsNeither(id: nat)
    ensures Forwardable(id) ==> id != TOPIC_ALIAS && id != MESSAGE_EXPIRY_INTERVAL
  {
  }

  lemma AtNode(all: seq<Node>, i: nat, p: Node?, prev: Node?, properties: Node?, taken: Node?, takenLast: Node?)
    requires i <= |all| && Progress(all, i, p, prev, properties, taken, takenLast)
    ensures (p == null) == (i == |all|) && (p != null ==> p == all[i])
  {
  }

  lemma AtEnd(all: seq<Node>, p: Node?, prev: Node?, properties: Node?, taken: Node?, takenLast: Node?)
    requires Distinct(all) && p == null && Progress(all, |all|, p, prev, properties, taken, takenLast)
    ensures IsList(properties, Chosen(all, false)) && IsList(taken, Chosen(all, true))
  {
    assert all[..|all|] == all;
    ChosenAmong(all, false);
    ChosenAmong(all, true);
  }

  /** property__read_all as a list of nodes: these values, in this order */
  method FromValues(ps: seq<Property>) returns (head: Node?, ghost nodes: seq<Node>)
    ensures IsList(head, nodes) && Values(nodes) == ps
    ensures forall k :: 0 <= k < |nodes| ==> fresh(nodes[k])
  {
    head, nodes := null, [];
    for i := |ps| downto 0
      invariant IsList(head, nodes) && Values(nodes) == ps[i..]
      invariant forall k :: 0 <= k < |nodes| ==> fresh(nodes[k])
    {
      head := new Node(ps[i], head);
      Prepended(head, nodes);
      nodes := [head] + nodes;
    }
  }

  lemma Prepended(node: Node, nodes: seq<Node>)
    requires IsList(node.next, nodes) && node !in nodes
    ensures IsList(node, [node] + nodes) && Values([node] + nodes) == [node.property] + Values(nodes)
  {
    assert forall k :: 0 < k < |nodes| + 1 ==> ([node] + nodes)[k] == nodes[k - 1];
  }

  /** The values of a list */
  method ToValues(head: Node?, ghost nodes: seq<Node>) returns (ps: seq<Property>)
    requires IsList(head, nodes)
    ensures ps == Values(nodes)
  {
    ps := [];
    var p := head;
    ghost var i := 0;
    while p != null
      invariant i <= |nodes| && p == First(nodes[i..]) && ps == Values(nodes[..i])
      decreases |nodes| - i
    {
      assert p == nodes[i];
      assert nodes[..i + 1] == nodes[..i] + [p];
      ps := ps + [p.property];
      p := p.next;
      i := i + 1;
    }
    assert nodes[..i] == nodes;
  }
}
