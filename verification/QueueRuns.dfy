/** Runs of operations on several queues: however they are mixed, no node is ever shared, and
    the queues hold what plain sequences would hold. */
module QueueRuns {
  import opened Bytes
  import opened InstrQueue

  /** `Move` pops a node and adds it, as it is, to the back of a queue. */
  datatype Op =
    | Add(q: nat, instr: bytes)
    | Pop(q: nat)
    | Move(q: nat, r: nat)
    | Append(q: nat, r: nat)
    | Prepend(q: nat, r: nat)

  /** The queues named are among the n queues; a queue is not joined to itself. */
  predicate Fits(op: Op, n: nat) {
    op.q < n && (op.Add? || op.Pop? || (op.r < n && (op.Move? || op.q != op.r)))
  }

  predicate AllFit(ops: seq<Op>, n: nat) {
    forall k :: 0 <= k < |ops| ==> Fits(ops[k], n)
  }

  /** What an operation does to the contents. */
  function Effect(c: seq<seq<bytes>>, op: Op): (c': seq<seq<bytes>>)
    requires Fits(op, |c|)
    ensures |c'| == |c|
  {
    match op
    case Add(q, instr) => c[q := c[q] + [instr]]
    case Pop(q) => if c[q] == [] then c else c[q := c[q][1..]]
    case Move(q, r) =>
      if c[q] == [] then c
      else
        var popped := c[q := c[q][1..]];
        popped[r := popped[r] + [c[q][0]]]
    case Append(q, r) => c[q := c[q] + c[r]][r := []]
    case Prepend(q, r) => c[q := c[r] + c[q]][r := []]
  }

  function EffectAll(c: seq<seq<bytes>>, ops: seq<Op>): (c': seq<seq<bytes>>)
    requires AllFit(ops, |c|)
    ensures |c'| == |c|
    decreases |ops|
  {
    if ops == [] then c else EffectAll(Effect(c, ops[0]), ops[1..])
  }

  ghost function Nodes(queues: seq<Queue>): (nodes: seq<seq<Node>>)
    reads queues
    ensures |nodes| == |queues|
    ensures forall i :: 0 <= i < |queues| ==> nodes[i] == queues[i].nodes
  {
    seq(|queues|, i requires 0 <= i < |queues| reads queues => queues[i].nodes)
  }

  ghost function Contents(nodes: seq<seq<Node>>): (c: seq<seq<bytes>>)
    ensures |c| == |nodes|
    ensures forall i :: 0 <= i < |nodes| ==> c[i] == Instrs(nodes[i])
  {
    seq(|nodes|, i requires 0 <= i < |nodes| => Instrs(nodes[i]))
  }

  ghost predicate Apart(nodes: seq<seq<Node>>) {
    forall i, j :: 0 <= i < j < |nodes| ==> Disjoint(nodes[i], nodes[j])
  }

  ghost predicate Different(queues: seq<Queue>) {
    forall i, j :: 0 <= i < j < |queues| ==> queues[i] != queues[j]
  }

  /** The nodes on any of the queues. */
  ghost function Held(queues: seq<Queue>): set<Node>
    reads queues
  {
    set i, k | 0 <= i < |queues| && 0 <= k < |queues[i].nodes| :: queues[i].nodes[k]
  }

  /** All queues are in order, and no two share a node. */
  ghost predicate Separate(queues: seq<Queue>)
    reads queues, Held(queues)
  {
    && Different(queues) && Apart(Nodes(queues))
    && forall i :: 0 <= i < |queues| ==> queues[i].Valid()
  }

  lemma ContentsUpdate(nodes: seq<seq<Node>>, q: nat, list: seq<Node>)
    requires q < |nodes|
    ensures Contents(nodes[q := list]) == Contents(nodes)[q := Instrs(list)]
  {
  }

  ghost predicate NoneIn(a: seq<Node>, b: seq<Node>) {
    forall n :: n in a ==> n !in b
  }

  lemma ApartUpdate(nodes: seq<seq<Node>>, q: nat, list: seq<Node>)
    requires Apart(nodes) && q < |nodes|
    requires forall j :: 0 <= j < |nodes| && j != q ==> NoneIn(nodes[j], list)
    ensures Apart(nodes[q := list])
  {
    forall j | 0 <= j < |nodes| && j != q ensures Disjoint(nodes[j], list) && Disjoint(list, nodes[j]) {
      assert forall k :: 0 <= k < |nodes[j]| ==> nodes[j][k] in nodes[j];
    }
  }

  /** Every other queue is in order and has no node in common with queue q. */
  ghost predicate OthersApart(queues: seq<Queue>, nodes: seq<seq<Node>>, q: nat)
    requires q < |queues| == |nodes|
    reads queues, Held(queues)
  {
    forall j :: 0 <= j < |queues| && j != q ==>
      queues[j] != queues[q] && queues[j].Valid() && queues[j].nodes == nodes[j] && NoneIn(nodes[j], nodes[q])
  }

  lemma OthersAre(queues: seq<Queue>, q: nat)
    requires Separate(queues) && q < |queues|
    ensures OthersApart(queues, Nodes(queues), q) && queues[q].Valid() && queues[q].nodes == Nodes(queues)[q]
  {
    var nodes := Nodes(queues);
    forall j | 0 <= j < |queues| && j != q ensures NoneIn(nodes[j], nodes[q]) {
      assert Disjoint(nodes[if j < q then j else q], nodes[if j < q then q else j]);
    }
  }

  /** Queue q has a new list of nodes, and the others are as they were. */
  lemma SeparateAgain(queues: seq<Queue>, was: seq<seq<Node>>, q: nat)
    requires Different(queues) && Apart(was) && q < |queues| == |was| && queues[q].Valid()
    requires forall j :: 0 <= j < |queues| && j != q ==>
               queues[j].Valid() && queues[j].nodes == was[j] && NoneIn(was[j], queues[q].nodes)
    ensures Separate(queues) && Nodes(queues) == was[q := queues[q].nodes]
  {
    ApartUpdate(was, q, queues[q].nodes);
    assert Nodes(queues) == was[q := queues[q].nodes];
  }

  method DoPop(queues: seq<Queue>, q: nat) returns (node: Node?)
    requires Separate(queues) && q < |queues|
    modifies queues[q]
    ensures Separate(queues) && Nodes(queues) == old(Nodes(queues))[q := queues[q].nodes]
    ensures node == null <==> old(queues[q].nodes) == []
    ensures queues[q].nodes == if node == null then [] else old(queues[q].nodes[1..])
    ensures node != null ==> node == old(queues[q].nodes[0])
  {
    ghost var was := Nodes(queues);
    OthersAre(queues, q);
    hide Apart, Queue.Valid;
    node := queues[q].Pop();
    SeparateAgain(queues, was, q);
  }

  method DoAdd(queues: seq<Queue>, q: nat, instr: bytes)
    requires Separate(queues) && q < |queues|
    modifies queues[q], queues[q].nodes
    ensures Separate(queues) && Nodes(queues) == old(Nodes(queues))[q := queues[q].nodes]
    ensures Instrs(queues[q].nodes) == old(Instrs(queues[q].nodes)) + [instr]
    ensures |queues[q].nodes| == old(|queues[q].nodes|) + 1 && old(queues[q].nodes) <= queues[q].nodes
    ensures fresh(queues[q].nodes[|queues[q].nodes| - 1])
  {
    ghost var was := Nodes(queues);
    OthersAre(queues, q);
    hide Apart, Queue.Valid, Instrs, Different;
    queues[q].Add(instr);
    assert queues[q].nodes == was[q] + [queues[q].nodes[|was[q]|]];
    SeparateAgain(queues, was, q);
  }

  method DoAddExisting(queues: seq<Queue>, q: nat, node: Node)
    requires Separate(queues) && q < |queues| && node !in Held(queues)
    modifies queues[q], queues[q].nodes, node
    ensures Separate(queues) && Nodes(queues) == old(Nodes(queues))[q := old(queues[q].nodes) + [node]]
  {
    ghost var was := Nodes(queues);
    OthersAre(queues, q);
    assert forall j :: 0 <= j < |queues| ==> node !in queues[j].nodes;
    hide Apart, Queue.Valid, Different, Held;
    queues[q].AddExisting(node);
    SeparateAgain(queues, was, q);
  }

  /** Appending, or prepending when `front` is set. */
  method Join(queue: Queue, other: Queue, front: bool)
    requires queue.Valid() && other.Valid() && queue != other && NoneIn(queue.nodes, other.nodes)
    modifies queue, other, queue.nodes, other.nodes
    ensures queue.Valid() && other.Valid() && other.nodes == []
    ensures queue.nodes == if front then old(other.nodes) + old(queue.nodes) else old(queue.nodes) + old(other.nodes)
  {
    assert forall k :: 0 <= k < |queue.nodes| ==> queue.nodes[k] in queue.nodes;
    assert Disjoint(queue.nodes, other.nodes);
    hide Queue.Valid, Disjoint;
    var ok;
    if front {
      ok := queue.PrependQueue(other);
    } else {
      ok := queue.AppendQueue(other);
    }
  }

  lemma JoinedApart(was: seq<seq<Node>>, q: nat, r: nat, list: seq<Node>)
    requires Apart(was) && q < |was| && r < |was| && q != r
    requires list == was[q] + was[r] || list == was[r] + was[q]
    ensures Apart(was[q := list][r := []])
  {
    var none: seq<Node> := [];
    ApartUpdate(was, r, none);
    var emptied, joined := was[r := none], was[q := list];
    forall j | 0 <= j < |was| && j != q ensures NoneIn(emptied[j], list) {
      if j != r {
        assert Disjoint(was[if j < q then j else q], was[if j < q then q else j]);
        assert Disjoint(was[if j < r then j else r], was[if j < r then r else j]);
      }
    }
    ApartUpdate(emptied, q, list);
    assert emptied[q := list] == joined[r := none];
  }

  /** The queues have these lists of nodes. */
  lemma SeparateWith(queues: seq<Queue>, nodes: seq<seq<Node>>)
    requires Different(queues) && Apart(nodes) && |nodes| == |queues|
    requires forall j :: 0 <= j < |queues| ==> queues[j].Valid() && queues[j].nodes == nodes[j]
    ensures Separate(queues) && Nodes(queues) == nodes
  {
    assert Nodes(queues) == nodes;
  }

  method DoJoin(queues: seq<Queue>, q: nat, r: nat, front: bool)
    requires Separate(queues) && q < |queues| && r < |queues| && q != r
    modifies queues[q], queues[r], queues[q].nodes, queues[r].nodes
    ensures Separate(queues)
    ensures var a, b := old(queues[q].nodes), old(queues[r].nodes);
            Nodes(queues) == old(Nodes(queues))[q := if front then b + a else a + b][r := []]
  {
    ghost var was := Nodes(queues);
    OthersAre(queues, q);
    OthersAre(queues, r);
    JoinedApart(was, q, r, if front then was[r] + was[q] else was[q] + was[r]);
    hide Apart, Queue.Valid, Nodes;
    Join(queues[q], queues[r], front);
    SeparateWith(queues, was[q := queues[q].nodes][r := []]);
  }

  ghost predicate AllIn(nodes: seq<seq<Node>>, pool: set<Node>) {
    forall i, k :: 0 <= i < |nodes| && 0 <= k < |nodes[i]| ==> nodes[i][k] in pool
  }

  lemma AllInUpdate(nodes: seq<seq<Node>>, pool: set<Node>, q: nat, list: seq<Node>)
    requires AllIn(nodes, pool) && q < |nodes| && forall k :: 0 <= k < |list| ==> list[k] in pool
    ensures AllIn(nodes[q := list], pool)
  {
  }

  lemma HeldIsIn(queues: seq<Queue>, pool: set<Node>)
    requires AllIn(Nodes(queues), pool)
    ensures Held(queues) <= pool
  {
    assert forall i :: 0 <= i < |queues| ==> Nodes(queues)[i] == queues[i].nodes;
  }

  lemma PopContents(nodes: seq<seq<Node>>, q: nat)
    requires q < |nodes|
    ensures nodes[q] == [] ==> Effect(Contents(nodes), Pop(q)) == Contents(nodes)
    ensures nodes[q] != [] ==> Effect(Contents(nodes), Pop(q)) == Contents(nodes[q := nodes[q][1..]])
    ensures nodes[q] != [] ==> Instrs(nodes[q]) != [] && Instrs(nodes[q])[0] == nodes[q][0].instr
  {
    if nodes[q] != [] {
      InstrsSplit(nodes[q], 1);
      InstrAt(nodes[q], 0);
      ContentsUpdate(nodes, q, nodes[q][1..]);
    }
  }

  lemma MoveContents(nodes: seq<seq<Node>>, q: nat, r: nat)
    requires q < |nodes| && r < |nodes| && nodes[q] != []
    ensures var popped := nodes[q := nodes[q][1..]];
            Effect(Contents(nodes), Move(q, r)) == Contents(popped[r := popped[r] + [nodes[q][0]]])
  {
    var popped := nodes[q := nodes[q][1..]];
    PopContents(nodes, q);
    InstrsOne(popped[r], nodes[q][0]);
    ContentsUpdate(popped, r, popped[r] + [nodes[q][0]]);
  }

  lemma JoinContents(nodes: seq<seq<Node>>, q: nat, r: nat, front: bool)
    requires q < |nodes| && r < |nodes| && q != r
    ensures Contents(nodes[q := if front then nodes[r] + nodes[q] else nodes[q] + nodes[r]][r := []])
         == Effect(Contents(nodes), if front then Prepend(q, r) else Append(q, r))
  {
    var a, b := nodes[q], nodes[r];
    var list := if front then b + a else a + b;
    InstrsConcat(if front then b else a, if front then a else b);
    ContentsUpdate(nodes, q, list);
    ContentsUpdate(nodes[q := list], r, []);
  }

  /** One operation. `pool` grows by the nodes it makes. */
  method Perform(queues: seq<Queue>, op: Op, ghost pool: set<Node>) returns (ghost more: set<Node>)
    requires Separate(queues) && Fits(op, |queues|) && AllIn(Nodes(queues), pool)
    modifies queues, pool
    ensures Separate(queues) && AllIn(Nodes(queues), more)
    ensures forall n :: n in more ==> n in pool || fresh(n)
    ensures Contents(Nodes(queues)) == Effect(old(Contents(Nodes(queues))), op)
  {
    HeldIsIn(queues, pool);
    more := pool;
    match op
    case Add(q, instr) => more := PerformAdd(queues, q, instr, pool);
    case Pop(q) => var node := PerformPop(queues, q, pool);
    case Move(q, r) => PerformMove(queues, q, r, pool);
    case Append(q, r) => PerformJoin(queues, q, r, false, pool);
    case Prepend(q, r) => PerformJoin(queues, q, r, true, pool);
  }

  method PerformAdd(queues: seq<Queue>, q: nat, instr: bytes, ghost pool: set<Node>) returns (ghost more: set<Node>)
    requires Separate(queues) && q < |queues| && AllIn(Nodes(queues), pool)
    modifies queues[q], queues[q].nodes
    ensures Separate(queues) && AllIn(Nodes(queues), more)
    ensures forall n :: n in more ==> n in pool || fresh(n)
    ensures Contents(Nodes(queues)) == Effect(old(Contents(Nodes(queues))), Add(q, instr))
  {
    hide Separate, Instrs;
    ghost var was, before := Nodes(queues), queues[q].nodes;
    DoAdd(queues, q, instr);
    ghost var list := queues[q].nodes;
    more := pool + {list[|list| - 1]};
    assert forall k :: 0 <= k < |before| ==> list[k] == before[k] == was[q][k];
    AllInUpdate(was, more, q, list);
    ContentsUpdate(was, q, list);
  }

  method PerformPop(queues: seq<Queue>, q: nat, ghost pool: set<Node>) returns (node: Node?)
    requires Separate(queues) && q < |queues| && AllIn(Nodes(queues), pool)
    modifies queues[q]
    ensures Separate(queues) && AllIn(Nodes(queues), pool)
    ensures Contents(Nodes(queues)) == Effect(old(Contents(Nodes(queues))), Pop(q))
    ensures node == null <==> old(queues[q].nodes) == []
    ensures node == null ==> Nodes(queues) == old(Nodes(queues))
    ensures node != null ==> node == old(queues[q].nodes[0]) && Nodes(queues) == old(Nodes(queues))[q := old(queues[q].nodes[1..])]
  {
    hide Separate, Instrs, Effect;
    ghost var was := Nodes(queues);
    node := DoPop(queues, q);
    PopContents(was, q);
    AllInUpdate(was, pool, q, queues[q].nodes);
  }

  lemma PoppedIsFree(queues: seq<Queue>, was: seq<seq<Node>>, q: nat)
    requires Apart(was) && |was| == |queues| && q < |was| && was[q] != [] && Distinct(was[q])
    requires Nodes(queues) == was[q := was[q][1..]]
    ensures was[q][0] !in Held(queues)
  {
    forall i, k | 0 <= i < |queues| && 0 <= k < |queues[i].nodes| ensures queues[i].nodes[k] != was[q][0] {
      assert queues[i].nodes == Nodes(queues)[i];
      assert i != q ==> Disjoint(was[if i < q then i else q], was[if i < q then q else i]);
    }
  }

  method PerformMove(queues: seq<Queue>, q: nat, r: nat, ghost pool: set<Node>)
    requires Separate(queues) && q < |queues| && r < |queues| && AllIn(Nodes(queues), pool)
    modifies queues[q], queues[r], queues[r].nodes, pool
    ensures Separate(queues) && AllIn(Nodes(queues), pool)
    ensures Contents(Nodes(queues)) == Effect(old(Contents(Nodes(queues))), Move(q, r))
  {
    assert Apart(Nodes(queues)) && Distinct(queues[q].nodes);
    ghost var was := Nodes(queues);
    assert forall i, k :: 0 <= i < |was| && 0 <= k < |was[i]| ==> was[i][k] in pool;
    hide *;
    var node := PerformPop(queues, q, pool);
    if node == null {
      EmptyMove(was, q, r);
      return;
    }
    PoppedIsFree(queues, was, q);
    ghost var popped := Nodes(queues);
    DoAddExisting(queues, r, node);
    MoveContents(was, q, r);
    InPool(popped, pool, r, node);
  }

  lemma InPool(nodes: seq<seq<Node>>, pool: set<Node>, r: nat, node: Node)
    requires AllIn(nodes, pool) && r < |nodes| && node in pool
    ensures AllIn(nodes[r := nodes[r] + [node]], pool)
  {
  }

  lemma EmptyMove(nodes: seq<seq<Node>>, q: nat, r: nat)
    requires q < |nodes| && r < |nodes| && nodes[q] == []
    ensures Effect(Contents(nodes), Move(q, r)) == Contents(nodes)
  {
  }

  method PerformJoin(queues: seq<Queue>, q: nat, r: nat, front: bool, ghost pool: set<Node>)
    requires Separate(queues) && q < |queues| && r < |queues| && q != r && AllIn(Nodes(queues), pool)
    modifies queues[q], queues[r], queues[q].nodes, queues[r].nodes
    ensures Separate(queues) && AllIn(Nodes(queues), pool)
    ensures Contents(Nodes(queues))
         == Effect(old(Contents(Nodes(queues))), if front then Prepend(q, r) else Append(q, r))
  {
    hide Separate, Instrs, Effect;
    ghost var was, list := Nodes(queues), if front then queues[r].nodes + queues[q].nodes else queues[q].nodes + queues[r].nodes;
    DoJoin(queues, q, r, front);
    JoinContents(was, q, r, front);
    assert forall k :: 0 <= k < |was[q]| ==> was[q][k] in pool;
    assert forall k :: 0 <= k < |was[r]| ==> was[r][k] in pool;
    AllInUpdate(was, pool, q, list);
    AllInUpdate(was[q := list], pool, r, []);
  }

  /** Any run of operations on queues that share nothing: they still share nothing, each is in
      order, and the contents are what the same run on plain sequences gives. */
  method RunAll(queues: seq<Queue>, ops: seq<Op>)
    requires Separate(queues) && AllFit(ops, |queues|)
    modifies queues, Held(queues)
    ensures Separate(queues)
    ensures Contents(Nodes(queues)) == EffectAll(old(Contents(Nodes(queues))), ops)
  {
    ghost var ours, pool := Held(queues), Held(queues);
    ghost var whole := EffectAll(Contents(Nodes(queues)), ops);
    assert AllIn(Nodes(queues), pool);
    assert ops[0..] == ops;
    hide *;
    var k := 0;
    while k < |ops|
      invariant 0 <= k <= |ops| && Separate(queues) && AllIn(Nodes(queues), pool)
      invariant forall n :: n in pool ==> n in ours || fresh(n)
      invariant AllFit(ops[k..], |queues|) && whole == EffectAll(Contents(Nodes(queues)), ops[k..])
    {
      RestFits(ops, k, |queues|);
      EffectAllStep(Contents(Nodes(queues)), ops[k..]);
      pool := Perform(queues, ops[k], pool);
      assert ops[k..][1..] == ops[k + 1..];
      k := k + 1;
    }
    EffectAllStep(Contents(Nodes(queues)), ops[k..]);
  }

  lemma RestFits(ops: seq<Op>, k: nat, n: nat)
    requires k < |ops| && AllFit(ops[k..], n)
    ensures Fits(ops[k], n) && ops[k..][0] == ops[k] && AllFit(ops[k + 1..], n)
  {
    assert ops[k..][1..] == ops[k + 1..];
  }

  lemma EffectAllStep(c: seq<seq<bytes>>, ops: seq<Op>)
    requires AllFit(ops, |c|)
    ensures EffectAll(c, ops) == if ops == [] then c else EffectAll(Effect(c, ops[0]), ops[1..])
  {
  }
}
