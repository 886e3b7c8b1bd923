/** Store-and-forward routing over a tree of processes with fixed process tables. */
module Routing {
  import opened Bytes

  type Name = CString

  /** A process: its parent, and its process table with the active flag of each entry. */
  datatype Process = Process(parent: Option<Name>, table: map<Name, bool>)

  /** Where an instruction for `dest` goes from a process. */
  datatype NextHop = Arrived | To(next: Name) | Scrapped

  /** The table entry of the destination decides; without one the entry of the parent does. */
  function Hop(p: Process, me: Name, dest: Name): NextHop {
    if dest == me then Arrived
    else if dest in p.table then (if p.table[dest] then To(dest) else Scrapped)
    else if p.parent.Some? && p.parent.value in p.table && p.table[p.parent.value] then To(p.parent.value)
    else Scrapped
  }

  /** A tree of processes with unique names: table entries name processes of the tree, and
      parents are one step nearer to the root. */
  datatype Net = Net(processes: map<Name, Process>, depth: map<Name, nat>) {
    ghost predicate Valid() {
      forall p :: p in processes ==>
        && p in depth
        && (forall q :: q in processes[p].table ==> q in processes)
        && (processes[p].parent.Some? ==>
              && processes[p].parent.value in processes && processes[p].parent.value in depth
              && depth[processes[p].parent.value] + 1 == depth[p])
    }

    ghost function HopFrom(p: Name, dest: Name): NextHop
      requires p in processes
    {
      Hop(processes[p], p, dest)
    }

    /** Falls with every hop. */
    ghost function Rank(p: Name, dest: Name): nat
      requires p in depth
    {
      if p == dest then 0 else depth[p] + 1
    }

    /** A hop that does not reach the destination goes to the parent. */
    lemma HopDescends(p: Name, dest: Name)
      requires Valid() && p in processes && HopFrom(p, dest).To?
      ensures var q := HopFrom(p, dest).next;
              && q in processes && q in depth && Rank(q, dest) < Rank(p, dest)
              && (q != dest ==> processes[p].parent == Some(q) && depth[q] < depth[p])
    {
    }
  }

  /** How the journey of an instruction ends. */
  datatype Fate = Fate(end: Name, delivered: bool, hops: nat)

  ghost function Journey(net: Net, p: Name, dest: Name): (f: Fate)
    requires net.Valid() && p in net.processes
    ensures f.end in net.processes && (f.delivered ==> f.end == dest)
    ensures f.hops <= net.Rank(p, dest) <= net.depth[p] + 1
    decreases net.Rank(p, dest)
  {
    match net.HopFrom(p, dest)
    case Arrived => Fate(p, true, 0)
    case Scrapped => Fate(p, false, 0)
    case To(q) =>
      net.HopDescends(p, dest);
      var f := Journey(net, q, dest);
      f.(hops := f.hops + 1)
  }

  /** The k-th ancestor of a process. */
  ghost function Ancestor(net: Net, p: Name, k: nat): (a: Option<Name>)
    requires net.Valid() && p in net.processes
    ensures a.Some? ==> a.value in net.processes
    ensures a.Some? ==> k + net.depth[a.value] == net.depth[p]
    decreases k
  {
    if k == 0 then Some(p)
    else if net.processes[p].parent == None then None
    else Ancestor(net, net.processes[p].parent.value, k - 1)
  }

  /** The k-th ancestor has an active entry for the destination. */
  ghost predicate KnowsActive(net: Net, p: Name, k: nat, dest: Name)
    requires net.Valid() && p in net.processes
  {
    var a := Ancestor(net, p, k);
    a.Some? && dest in net.processes[a.value].table && net.processes[a.value].table[dest]
  }

  /** The k-th ancestor does not know the destination and can reach its parent. */
  ghost predicate PassesOn(net: Net, p: Name, k: nat, dest: Name)
    requires net.Valid() && p in net.processes
  {
    var a := Ancestor(net, p, k);
    && a.Some? && a.value != dest && dest !in net.processes[a.value].table
    && var pr := net.processes[a.value];
       pr.parent.Some? && pr.parent.value in pr.table && pr.table[pr.parent.value]
  }

  /** The k-th ancestor is the first that knows the destination, and all links up to it and
      from it are active. */
  ghost predicate ReachesVia(net: Net, p: Name, dest: Name, k: nat)
    requires net.Valid() && p in net.processes
  {
    KnowsActive(net, p, k, dest) && forall j :: 0 <= j < k ==> PassesOn(net, p, j, dest)
  }

  lemma AncestorOfParent(net: Net, p: Name, k: nat, dest: Name)
    requires net.Valid() && p in net.processes && net.processes[p].parent.Some?
    ensures var q := net.processes[p].parent.value;
            && Ancestor(net, p, k + 1) == Ancestor(net, q, k)
            && KnowsActive(net, p, k + 1, dest) == KnowsActive(net, q, k, dest)
            && PassesOn(net, p, k + 1, dest) == PassesOn(net, q, k, dest)
  {
  }

  /** An instruction for another process is delivered exactly when the first process among
      the source and its ancestors that has the destination in its table has it active, and
      every process before it has an active link to its parent; then the number of hops is
      one more than the number of ancestors asked. */
  lemma {:induction false} DeliveredExactly(net: Net, p: Name, dest: Name)
    requires net.Valid() && p in net.processes && p != dest
    ensures Journey(net, p, dest).delivered <==> exists k: nat :: ReachesVia(net, p, dest, k)
    ensures forall k: nat :: ReachesVia(net, p, dest, k) ==> Journey(net, p, dest).hops == k + 1
    decreases net.depth[p]
  {
    var f := Journey(net, p, dest);
    forall k: nat | ReachesVia(net, p, dest, k) ensures f.delivered && f.hops == k + 1 {
      ReachedInSteps(net, p, dest, k);
    }
    if f.delivered {
      var k := StepsOfDelivery(net, p, dest);
    }
  }

  lemma {:induction false} ReachedInSteps(net: Net, p: Name, dest: Name, k: nat)
    requires net.Valid() && p in net.processes && p != dest && ReachesVia(net, p, dest, k)
    ensures Journey(net, p, dest) == Fate(dest, true, k + 1)
    decreases k
  {
    assert Ancestor(net, p, 0) == Some(p);
    if k == 0 {
      assert net.HopFrom(p, dest) == To(dest);
      net.HopDescends(p, dest);
    } else {
      assert PassesOn(net, p, 0, dest);
      var q := net.processes[p].parent.value;
      assert net.HopFrom(p, dest) == To(q);
      AncestorOfParent(net, p, k - 1, dest);
      forall j | 0 <= j < k - 1 ensures PassesOn(net, q, j, dest) {
        AncestorOfParent(net, p, j, dest);
        assert PassesOn(net, p, j + 1, dest);
      }
      ReachedInSteps(net, q, dest, k - 1);
    }
  }

  lemma {:induction false} StepsOfDelivery(net: Net, p: Name, dest: Name) returns (k: nat)
    requires net.Valid() && p in net.processes && p != dest && Journey(net, p, dest).delivered
    ensures ReachesVia(net, p, dest, k)
    decreases net.depth[p]
  {
    assert Ancestor(net, p, 0) == Some(p);
    net.HopDescends(p, dest);
    var q := net.HopFrom(p, dest).next;
    if dest in net.processes[p].table {
      k := 0;
      assert KnowsActive(net, p, 0, dest);
    } else {
      var i := StepsOfDelivery(net, q, dest);
      k := i + 1;
      AncestorOfParent(net, p, i, dest);
      forall j | 0 <= j < k ensures PassesOn(net, p, j, dest) {
        if j > 0 {
          AncestorOfParent(net, p, j - 1, dest);
          assert PassesOn(net, q, j - 1, dest);
        }
      }
    }
  }

  /** Every entry is active, and the parent has one. */
  predicate AllActive(pr: Process) {
    && (forall r :: r in pr.table ==> pr.table[r])
    && (pr.parent.Some? ==> pr.parent.value in pr.table)
  }

  /** With every entry active and every parent in its child's table: delivered exactly when
      some process among the source and its ancestors has the destination in its table;
      otherwise scrapped at the root. */
  lemma {:induction false} DeliveredIffKnown(net: Net, p: Name, dest: Name)
    requires net.Valid() && p in net.processes && p != dest
    requires forall q :: q in net.processes ==> AllActive(net.processes[q])
    ensures Journey(net, p, dest).delivered <==> exists k: nat :: KnowsActive(net, p, k, dest)
    ensures !Journey(net, p, dest).delivered ==> net.processes[Journey(net, p, dest).end].parent == None
    decreases net.depth[p]
  {
    assert Ancestor(net, p, 0) == Some(p) && AllActive(net.processes[p]);
    if dest in net.processes[p].table {
      net.HopDescends(p, dest);
      assert KnowsActive(net, p, 0, dest);
    } else if net.processes[p].parent.Some? {
      var q := net.processes[p].parent.value;
      net.HopDescends(p, dest);
      DeliveredIffKnown(net, q, dest);
      forall k: nat {
        AncestorOfParent(net, p, k, dest);
      }
      if k: nat :| KnowsActive(net, p, k, dest) {
        assert KnowsActive(net, q, k - 1, dest);
      }
    } else {
      forall k: nat | k > 0 ensures !KnowsActive(net, p, k, dest) {
        assert Ancestor(net, p, k) == None;
      }
    }
  }
}
