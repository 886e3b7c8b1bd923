/** The linked instruction queue. `nodes` lists the nodes from front to back; every
    operation is specified by what it does to that list. */
module InstrQueue {
  import opened Bytes

  class Node {
    const instr: bytes
    var nextnode: Node?

    constructor (instr: bytes)
      ensures this.instr == instr && nextnode == null
    {
      this.instr := instr;
      nextnode := null;
    }
  }

  /** The instruction buffers of a list of nodes. */
  ghost function Instrs(nodes: seq<Node>): (r: seq<bytes>)
    ensures |r| == |nodes|
  {
    if nodes == [] then [] else Instrs(nodes[..|nodes| - 1]) + [nodes[|nodes| - 1].instr]
  }

  lemma {:induction false} InstrAt(nodes: seq<Node>, k: nat)
    requires k < |nodes|
    ensures Instrs(nodes)[k] == nodes[k].instr
    decreases |nodes|
  {
    if k < |nodes| - 1 {
      InstrAt(nodes[..|nodes| - 1], k);
    }
  }

  lemma {:induction false} InstrsConcat(a: seq<Node>, b: seq<Node>)
    ensures Instrs(a + b) == Instrs(a) + Instrs(b)
    decreases |b|
  {
    if b == [] {
      assert a + b == a;
    } else {
      assert (a + b)[..|a + b| - 1] == a + b[..|b| - 1];
      InstrsConcat(a, b[..|b| - 1]);
    }
  }

  lemma InstrsOne(a: seq<Node>, n: Node)
    ensures Instrs(a + [n]) == Instrs(a) + [n.instr]
  {
    assert (a + [n])[..|a|] == a;
  }

  lemma InstrsSplit(nodes: seq<Node>, k: nat)
    requires k <= |nodes|
    ensures Instrs(nodes[..k]) == Instrs(nodes)[..k]
    ensures Instrs(nodes[k..]) == Instrs(nodes)[k..]
  {
    hide Instrs;
    var a, b := nodes[..k], nodes[k..];
    assert nodes == a + b;
    InstrsConcat(a, b);
    assert Instrs(nodes)[..k] == Instrs(a) && Instrs(nodes)[k..] == Instrs(b);
  }

  ghost predicate Distinct(nodes: seq<Node>) {
    forall i, j :: 0 <= i < j < |nodes| ==> nodes[i] != nodes[j]
  }

  ghost predicate Disjoint(a: seq<Node>, b: seq<Node>) {
    forall i, j :: 0 <= i < |a| && 0 <= j < |b| ==> a[i] != b[j]
  }

  lemma DistinctConcat(a: seq<Node>, b: seq<Node>)
    ensures Distinct(a + b) <==> Distinct(a) && Distinct(b) && Disjoint(a, b)
  {
    var all := a + b;
    assert forall i :: 0 <= i < |a| ==> a[i] == all[i];
    assert forall j :: 0 <= j < |b| ==> b[j] == all[|a| + j];
    assert forall k :: |a| <= k < |all| ==> all[k] == b[k - |a|];
  }

  lemma DistinctParts(all: seq<Node>, front: seq<Node>, n: Node, rest: seq<Node>)
    requires Distinct(all) && front <= all && |front| < |all|
    requires n == all[|front|] && rest == all[|front| + 1..]
    ensures n !in front && n !in rest && Disjoint(front, rest)
    ensures front + [n] <= all
    ensures rest == [] ==> |front| + 1 == |all|
    ensures rest != [] ==> rest[0] == all[|front| + 1] && rest[1..] == all[|front| + 2..]
  {
  }

  class Queue {
    var nextnode: Node?
    var backnode: Node?
    /** Which three mutexes guard the queue. */
    var mutexes: nat
    ghost var nodes: seq<Node>

    /** Front and back are NULL together, the back is the last node reached from the front,
        and no node occurs twice. */
    ghost predicate Valid()
      reads this, nodes
    {
      && Distinct(nodes)
      && nextnode == (if nodes == [] then null else nodes[0])
      && backnode == (if nodes == [] then null else nodes[|nodes| - 1])
      && (forall i {:trigger nodes[i].nextnode} :: 0 <= i < |nodes| ==>
            nodes[i].nextnode == if i + 1 < |nodes| then nodes[i + 1] else null)
    }

    constructor (mutexes: nat)
      ensures Valid() && nodes == [] && this.mutexes == mutexes
    {
      nextnode, backnode, nodes := null, null, [];
      this.mutexes := mutexes;
    }

    method AddExisting(node: Node)
      requires Valid() && node !in nodes
      modifies this, nodes, node
      ensures Valid() && nodes == old(nodes) + [node]
      ensures mutexes == old(mutexes)
    {
      node.nextnode := null;
      if backnode == null {
        nextnode := node;
        backnode := node;
      } else {
        backnode.nextnode := node;
        backnode := node;
      }
      nodes := nodes + [node];
    }

    method Add(instr: bytes)
      requires Valid()
      modifies this, nodes
      ensures Valid() && mutexes == old(mutexes)
      ensures |nodes| == |old(nodes)| + 1 && nodes[..|old(nodes)|] == old(nodes)
      ensures fresh(nodes[|old(nodes)|]) && nodes[|old(nodes)|].instr == instr
      ensures Instrs(nodes) == old(Instrs(nodes)) + [instr]
    {
      hide Instrs;
      var node := new Node(instr);
      InstrsOne(nodes, node);
      if backnode == null {
        nextnode := node;
        backnode := node;
      } else {
        backnode.nextnode := node;
        backnode := node;
      }
      nodes := nodes + [node];
    }

    method Pop() returns (current: Node?)
      requires Valid()
      modifies this
      ensures Valid() && mutexes == old(mutexes)
      ensures old(nodes) == [] ==> current == null && nodes == []
      ensures old(nodes) != [] ==> current == old(nodes)[0] && nodes == old(nodes)[1..]
    {
      if nextnode == null { return null; }
      current := nextnode;
      nextnode := current.nextnode;
      if nextnode == null {
        backnode := null;
      }
      nodes := nodes[1..];
    }

    /** One round of the append loop. */
    method TakeOver(add: Queue, node: Node) returns (next: Node?)
      requires Valid() && add.Valid() && add != this
      requires node !in nodes && node !in add.nodes && Disjoint(nodes, add.nodes)
      modifies this, nodes, node, add
      ensures Valid() && add.Valid() && mutexes == old(mutexes) && add.mutexes == old(add.mutexes)
      ensures nodes == old(nodes) + [node]
      ensures old(add.nodes) == [] ==> next == null && add.nodes == []
      ensures old(add.nodes) != [] ==> next == old(add.nodes)[0] && add.nodes == old(add.nodes)[1..]
    {
      AddExisting(node);
      next := add.Pop();
    }

    /** Moves every node of `add` to the back of this queue. */
    method AppendQueue(add: Queue?) returns (ok: bool)
      requires Valid()
      requires add != null ==> add != this && add.Valid() && Disjoint(nodes, add.nodes)
      modifies this, nodes, if add != null then {add} else {}, if add != null then set n | n in add.nodes else {}
      ensures ok <==> add != null
      ensures Valid() && mutexes == old(mutexes)
      ensures add == null ==> nodes == old(nodes)
      ensures add != null ==> add.Valid() && add.nodes == [] && add.mutexes == old(add.mutexes)
      ensures add != null ==> nodes == old(nodes) + old(add.nodes)
    {
      if add == null { return false; }
      AppendAll(add);
      return true;
    }

    /** The append loop. */
    method AppendAll(add: Queue)
      requires Valid() && add != this && add.Valid() && Disjoint(nodes, add.nodes)
      modifies this, nodes, add, add.nodes
      ensures Valid() && mutexes == old(mutexes)
      ensures add.Valid() && add.nodes == [] && add.mutexes == old(add.mutexes)
      ensures nodes == old(nodes) + old(add.nodes)
    {
      DistinctConcat(nodes, add.nodes);
      ghost var all := nodes + add.nodes;
      var first := add.Pop();
      assert Moving(add, first, all);
      hide *;
      AppendLoop(add, first, all);
    }

    method AppendLoop(add: Queue, first: Node?, ghost all: seq<Node>)
      requires Moving(add, first, all)
      modifies this, nodes, add, add.nodes, if first != null then {first} else {}
      ensures Valid() && add.Valid() && nodes == all && add.nodes == []
      ensures mutexes == old(mutexes) && add.mutexes == old(add.mutexes)
    {
      hide *;
      ghost var ours, theirs := nodes, add.nodes;
      var currentnode := first;
      while currentnode != null
        invariant Moving(add, currentnode, all)
        invariant mutexes == old(mutexes) && add.mutexes == old(add.mutexes)
        invariant forall k :: 0 <= k < |nodes| ==> nodes[k] in ours || nodes[k] in theirs || nodes[k] == first
        invariant forall k :: 0 <= k < |add.nodes| ==> add.nodes[k] in theirs
        invariant currentnode == null || currentnode in theirs || currentnode == first
        decreases |all| - |nodes|
      {
        currentnode := AppendTurn(add, currentnode, all);
      }
      AllMoved(add, all);
    }

    /** A head of the append loop: the nodes of `all` before the one in hand are here. */
    ghost predicate Moving(add: Queue, node: Node?, all: seq<Node>)
      reads this, nodes, add, add.nodes
    {
      && Valid() && add.Valid() && add != this && Distinct(all) && nodes <= all
      && (node == null ==> add.nodes == [] && nodes == all)
      && (node != null ==> |nodes| < |all| && node == all[|nodes|] && add.nodes == all[|nodes| + 1..])
    }

    method AppendTurn(add: Queue, node: Node, ghost all: seq<Node>) returns (next: Node?)
      requires Moving(add, node, all)
      modifies this, nodes, node, add
      ensures Moving(add, next, all) && mutexes == old(mutexes) && add.mutexes == old(add.mutexes)
      ensures nodes == old(nodes) + [node] && |nodes| <= |all|
      ensures forall k :: 0 <= k < |add.nodes| ==> add.nodes[k] in old(add.nodes)
      ensures next != null ==> next in old(add.nodes)
    {
      DistinctParts(all, nodes, node, add.nodes);
      hide Distinct, Disjoint, Valid;
      next := TakeOver(add, node);
    }

    lemma AllMoved(add: Queue, all: seq<Node>)
      requires Moving(add, null, all)
      ensures Valid() && add.Valid() && nodes == all && add.nodes == []
    {
    }

    /** Puts every node of `add` in front of this queue: append the other way round, then
        swap the two structures, mutexes included. */
    method PrependQueue(add: Queue?) returns (ok: bool)
      requires Valid()
      requires add != null ==> add != this && add.Valid() && Disjoint(nodes, add.nodes)
      modifies this, nodes, if add != null then {add} else {}, if add != null then set n | n in add.nodes else {}
      ensures ok <==> add != null
      ensures Valid()
      ensures add == null ==> nodes == old(nodes) && mutexes == old(mutexes)
      ensures add != null ==> add.Valid() && add.nodes == [] && nodes == old(add.nodes) + old(nodes)
      ensures add != null ==> mutexes == old(add.mutexes) && add.mutexes == old(mutexes)
    {
      if add == null { return false; }
      ok := add.AppendQueue(this);
      if ok {
        nextnode, add.nextnode := add.nextnode, nextnode;
        backnode, add.backnode := add.backnode, backnode;
        mutexes, add.mutexes := add.mutexes, mutexes;
        nodes, add.nodes := add.nodes, nodes;
      }
    }
  }
}
