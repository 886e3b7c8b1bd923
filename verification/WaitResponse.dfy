/** Waiting for a response: instructions are taken off the incoming queue until one has the
    awaited name or is an exit; the others go back to the front of the queue. */
module WaitResponse {
  import opened Bytes
  import opened WireFormat
  import opened InstrQueue
  import Reciever

  /** The parser finds the fields of the buffer. */
  predicate Readable(b: bytes) { Parse(b).Meta? }

  /** A field that the parser has scanned past ends inside the buffer. */
  lemma {:induction false} ScannedIsTerminated(buf: bytes, off: nat)
    requires off < |buf| && AfterNul(buf, off) < |buf|
    ensures CStringAt(buf, off).Some?
    decreases |buf| - off
  {
    if buf[off] != 0 {
      ScannedIsTerminated(buf, off + 1);
    }
  }

  lemma NameIsTerminated(b: bytes)
    requires Readable(b)
    ensures CStringAt(b, Parse(b).instr).Some?
  {
    var m := Parse(b).instr;
    assert AfterNul(b, m + 1) + 4 <= |b|;
    if b[m] != 0 {
      ScannedIsTerminated(b, m + 1);
    }
  }

  function NameOf(b: bytes): CString
    requires Readable(b)
  {
    NameIsTerminated(b);
    CStringAt(b, Parse(b).instr).value
  }

  /** The scan stops at this buffer: it has the awaited name or is an exit. */
  predicate Stops(b: bytes, name: CString) {
    Readable(b) && (NameOf(b) == name || NameOf(b) == Reciever.EXIT)
  }

  ghost predicate AllReadable(frames: seq<bytes>) {
    forall k :: 0 <= k < |frames| ==> Readable(frames[k])
  }

  lemma BodyIsReadable(head: bytes, cur: bytes, packets: seq<bytes>, me: CString)
    requires |head| == 4 && Int32(head) >= 4
    ensures AllReadable(Reciever.DecodeBody(head, cur, packets, me).frames)
  {
    hide Parse, Int32, Reciever.Consume, Reciever.Unread;
  }

  lemma OneIsReadable(cur: bytes, packets: seq<bytes>, me: CString)
    ensures AllReadable(Reciever.DecodeOne(cur, packets, me).frames)
  {
    hide Readable, Int32, Reciever.DecodeBody, Reciever.Consume, Reciever.Unread;
    var all := Reciever.Unread(cur, packets);
    if |all| >= 4 && Int32(all[..4]) >= 4 {
      var (cur1, packets1) := Reciever.Consume(cur, packets, 4);
      BodyIsReadable(all[..4], cur1, packets1, me);
    }
  }

  /** Whatever the packets, every instruction a reciever queues is readable. */
  lemma {:induction false} DecodedIsReadable(cur: bytes, packets: seq<bytes>, me: CString, checks: nat)
    ensures AllReadable(Reciever.Decode(cur, packets, me, checks).0)
    decreases checks
  {
    hide Readable, Reciever.DecodeOne, Reciever.Decode;
    Reciever.DecodeUnfolds(cur, packets, me, checks);
    OneIsReadable(cur, packets, me);
    var r := Reciever.DecodeOne(cur, packets, me);
    if checks > 0 && r.Continue? {
      DecodedIsReadable(r.cur, r.packets, me, checks - 1);
    }
  }

  ghost predicate Named(nodes: seq<Node>) {
    forall k :: 0 <= k < |nodes| ==> Readable(nodes[k].instr)
  }

  lemma NamedBy(nodes: seq<Node>)
    ensures Named(nodes) <==> AllReadable(Instrs(nodes))
  {
    forall k | 0 <= k < |nodes| ensures Instrs(nodes)[k] == nodes[k].instr {
      InstrAt(nodes, k);
    }
    assert AllReadable(Instrs(nodes)) ==> forall k :: 0 <= k < |nodes| ==> Readable(Instrs(nodes)[k]);
  }

  ghost predicate NoneStops(nodes: seq<Node>, name: CString) {
    forall k :: 0 <= k < |nodes| ==> !Stops(nodes[k].instr, name)
  }

  /** wimp_instr_check on the name of a buffer. */
  lemma CheckName(b: bytes, name: CString)
    requires Readable(b)
    ensures StrcmpEq(b, Parse(b).instr, name) == Some(NameOf(b) == name)
  {
    NameIsTerminated(b);
    StrcmpDecides(b, Parse(b).instr, name);
  }

  /** What the recievers put on the queue each time it is unlocked. */
  class Recievers {
    var batches: seq<seq<bytes>>

    constructor (batches: seq<seq<bytes>>)
      ensures this.batches == batches
    {
      this.batches := batches;
    }

    /** The queue is unlocked: the next batch is appended. */
    method Unlocked(queue: Queue)
      requires queue.Valid()
      modifies this, queue, queue.nodes
      ensures queue.Valid() && queue.mutexes == old(queue.mutexes)
      ensures old(queue.nodes) <= queue.nodes
      ensures forall j :: |old(queue.nodes)| <= j < |queue.nodes| ==> fresh(queue.nodes[j])
      ensures old(batches) == [] ==> batches == [] && queue.nodes == old(queue.nodes)
      ensures old(batches) != [] ==> batches == old(batches)[1..]
                                     && Instrs(queue.nodes) == old(Instrs(queue.nodes)) + old(batches)[0]
    {
      if batches == [] { return; }
      var batch := batches[0];
      batches := batches[1..];
      for k := 0 to |batch|
        invariant queue.Valid() && queue.mutexes == old(queue.mutexes) && batches == old(batches)[1..]
        invariant old(queue.nodes) <= queue.nodes
        invariant forall j :: |old(queue.nodes)| <= j < |queue.nodes| ==> fresh(queue.nodes[j])
        invariant Instrs(queue.nodes) == old(Instrs(queue.nodes)) + batch[..k]
      {
        hide *;
        queue.Add(batch[k]);
        assert batch[..k + 1] == batch[..k] + [batch[k]];
      }
      assert batch[..|batch|] == batch;
    }
  }

  datatype ScanResult = Nothing | Match | Exit

  /** A head of the reading loop: the nodes before the one in hand are on `tmp`. */
  ghost predicate Scanning(incoming: Queue, tmp: Queue, all: seq<Node>, currentnode: Node?, name: CString)
    reads incoming, incoming.nodes, tmp, tmp.nodes
  {
    && incoming != tmp && incoming.Valid() && tmp.Valid() && Distinct(all)
    && tmp.nodes <= all && Named(all) && NoneStops(tmp.nodes, name)
    && (currentnode == null ==> incoming.nodes == [] && tmp.nodes == all)
    && (currentnode != null ==>
          |tmp.nodes| < |all| && currentnode == all[|tmp.nodes|] && incoming.nodes == all[|tmp.nodes| + 1..])
  }

  /** The scan has stopped at position |tmp.nodes| of what has arrived. */
  ghost predicate Ready(incoming: Queue, tmp: Queue, all: seq<Node>, name: CString)
    reads incoming, incoming.nodes, tmp, tmp.nodes
  {
    var k := |tmp.nodes|;
    && incoming != tmp && incoming.Valid() && tmp.Valid() && Distinct(all)
    && k < |all| && tmp.nodes == all[..k] && incoming.nodes == all[k + 1..]
    && NoneStops(tmp.nodes, name) && Stops(all[k].instr, name)
  }

  /** One turn of the reading loop. */
  method ScanTurn(incoming: Queue, tmp: Queue, currentnode: Node, name: CString, ghost all: seq<Node>)
    returns (result: ScanResult, next: Node?)
    requires Scanning(incoming, tmp, all, currentnode, name)
    modifies incoming, tmp, tmp.nodes, incoming.nodes, currentnode
    ensures incoming.mutexes == old(incoming.mutexes) && tmp.mutexes == old(tmp.mutexes)
    ensures result == Nothing ==> Scanning(incoming, tmp, all, next, name)
    ensures result == Nothing ==> tmp.nodes == old(tmp.nodes) + [currentnode] && |tmp.nodes| <= |all|
    ensures forall k :: 0 <= k < |incoming.nodes| ==> incoming.nodes[k] in old(incoming.nodes)
    ensures result == Nothing && next != null ==> next in old(incoming.nodes)
    ensures result != Nothing ==> Ready(incoming, tmp, all, name) && currentnode == all[|tmp.nodes|]
    ensures result != Nothing ==> (result == Match <==> NameOf(currentnode.instr) == name)
  {
    hide Stops, Readable, NameOf;
    ghost var front, rest := tmp.nodes, incoming.nodes;
    result := Check(currentnode, name);
    if result != Nothing {
      return result, null;
    }
    DistinctParts(all, front, currentnode, rest);
    next := tmp.TakeOver(incoming, currentnode);
  }

  /** The reading stage: pops nodes until one stops the scan, moving the others to `tmp`. */
  method Scan(incoming: Queue, tmp: Queue, name: CString, ghost all: seq<Node>)
    returns (result: ScanResult, node: Node?)
    requires incoming != tmp && incoming.Valid() && tmp.Valid() && Distinct(all)
    requires all == tmp.nodes + incoming.nodes && Named(all) && NoneStops(tmp.nodes, name)
    modifies incoming, tmp, tmp.nodes, incoming.nodes
    ensures incoming.mutexes == old(incoming.mutexes) && tmp.mutexes == old(tmp.mutexes)
    ensures result == Nothing ==> Scanning(incoming, tmp, all, null, name) && node == null
    ensures result != Nothing ==> Ready(incoming, tmp, all, name)
    ensures result == Exit ==> node == null && NameOf(all[|tmp.nodes|].instr) != name
    ensures result == Match ==> node == all[|tmp.nodes|] && NameOf(node.instr) == name
  {
    var first := incoming.Pop();
    assert Scanning(incoming, tmp, all, first, name);
    hide *;
    result, node := ScanLoop(incoming, tmp, first, name, all);
  }

  method ScanLoop(incoming: Queue, tmp: Queue, first: Node?, name: CString, ghost all: seq<Node>)
    returns (result: ScanResult, node: Node?)
    requires Scanning(incoming, tmp, all, first, name)
    modifies incoming, tmp, tmp.nodes, incoming.nodes, if first != null then {first} else {}
    ensures incoming.mutexes == old(incoming.mutexes) && tmp.mutexes == old(tmp.mutexes)
    ensures result == Nothing ==> Scanning(incoming, tmp, all, null, name) && node == null
    ensures result != Nothing ==> Ready(incoming, tmp, all, name)
    ensures result == Exit ==> node == null && NameOf(all[|tmp.nodes|].instr) != name
    ensures result == Match ==> node == all[|tmp.nodes|] && NameOf(node.instr) == name
  {
    hide *;
    ghost var kept, ours := tmp.nodes, incoming.nodes;
    result, node := Nothing, null;
    var currentnode := first;
    while currentnode != null
      invariant result == Nothing && node == null
      invariant Scanning(incoming, tmp, all, currentnode, name)
      invariant forall k :: 0 <= k < |incoming.nodes| ==> incoming.nodes[k] in ours
      invariant forall k :: 0 <= k < |tmp.nodes| ==> tmp.nodes[k] in ours || tmp.nodes[k] in kept || tmp.nodes[k] == first
      invariant currentnode == null || currentnode in ours || currentnode == first
      invariant incoming.mutexes == old(incoming.mutexes) && tmp.mutexes == old(tmp.mutexes)
      decreases |all| - |tmp.nodes|
    {
      var next;
      result, next := ScanTurn(incoming, tmp, currentnode, name, all);
      if result != Nothing {
        return result, if result == Match then currentnode else null;
      }
      currentnode := next;
    }
  }

  /** Is this node the awaited one, or an exit? */
  method Check(node: Node, name: CString) returns (result: ScanResult)
    requires Readable(node.instr)
    ensures result == Nothing <==> !Stops(node.instr, name)
    ensures result != Nothing ==> (result == Match <==> NameOf(node.instr) == name)
  {
    CheckName(node.instr, name);
    CheckName(node.instr, Reciever.EXIT);
    var meta := Parse(node.instr);
    var isMatch := StrcmpEq(node.instr, meta.instr, name);
    if isMatch == Some(true) {
      return Match;
    }
    var isExit := StrcmpEq(node.instr, meta.instr, Reciever.EXIT);
    result := if isExit == Some(true) then Exit else Nothing;
  }

  /** The position of the first node that stops the scan, or the number of nodes. */
  ghost function FirstStop(all: seq<Node>, name: CString): (k: nat)
    ensures k <= |all| && NoneStops(all[..k], name)
    ensures k < |all| ==> Stops(all[k].instr, name)
  {
    if all == [] || Stops(all[0].instr, name) then 0
    else
      var k := 1 + FirstStop(all[1..], name);
      assert all[1..][..k - 1] == all[..k][1..];
      assert forall j :: 0 < j < k ==> all[j] == all[1..][..k - 1][j - 1];
      k
  }

  lemma NoStopAt(all: seq<Node>, name: CString, k: nat, j: nat)
    requires j < k <= |all| && NoneStops(all[..k], name)
    ensures !Stops(all[j].instr, name)
  {
    assert all[..k][j] == all[j];
  }

  lemma FirstStopIs(all: seq<Node>, name: CString, k: nat)
    requires k <= |all| && NoneStops(all[..k], name)
    requires k < |all| ==> Stops(all[k].instr, name)
    ensures FirstStop(all, name) == k
  {
    var j := FirstStop(all, name);
    if j < k {
      NoStopAt(all, name, k, j);
    } else if k < j {
      NoStopAt(all, name, j, k);
    }
  }

  /** Between two passes: everything that has arrived is on `tmp`, where nothing stops the
      scan, and on the incoming queue, in order. */
  ghost predicate Waiting(incoming: Queue, tmp: Queue, recievers: Recievers, all: seq<Node>, name: CString)
    reads incoming, incoming.nodes, tmp, tmp.nodes, recievers
  {
    && incoming != tmp && incoming.Valid() && tmp.Valid() && Distinct(all)
    && all == tmp.nodes + incoming.nodes && Named(all) && NoneStops(tmp.nodes, name)
    && forall k :: 0 <= k < |recievers.batches| ==> AllReadable(recievers.batches[k])
  }

  /** `more` is what has arrived: the nodes of `all` and those of one batch. */
  ghost predicate Arrived(all: seq<Node>, batch: seq<bytes>, more: seq<Node>) {
    all <= more && Instrs(more) == Instrs(all) + batch
  }

  lemma ArrivedBehind(front: seq<Node>, rest: seq<Node>, batch: seq<bytes>, rest': seq<Node>)
    requires rest <= rest' && Instrs(rest') == Instrs(rest) + batch
    ensures Arrived(front + rest, batch, front + rest')
  {
    InstrsConcat(front, rest);
    InstrsConcat(front, rest');
    ConcatAssoc(Instrs(front), Instrs(rest), batch);
  }

  lemma NamedLater(all: seq<Node>, batch: seq<bytes>, more: seq<Node>)
    requires Named(all) && AllReadable(batch) && Arrived(all, batch, more)
    ensures Named(more)
  {
    hide Instrs, Readable;
    NamedBy(all);
    NamedBy(more);
  }

  /** The recievers append a batch while nothing has stopped the scan. */
  method UnlockWaiting(incoming: Queue, tmp: Queue, recievers: Recievers, name: CString, ghost all: seq<Node>)
    returns (ghost more: seq<Node>)
    requires Waiting(incoming, tmp, recievers, all, name) && recievers.batches != []
    modifies incoming, incoming.nodes, recievers
    ensures incoming.mutexes == old(incoming.mutexes)
    ensures recievers.batches == old(recievers.batches)[1..]
    ensures Waiting(incoming, tmp, recievers, more, name) && Arrived(all, old(recievers.batches)[0], more)
    ensures old(incoming.nodes) <= incoming.nodes
    ensures forall j :: |old(incoming.nodes)| <= j < |incoming.nodes| ==> fresh(incoming.nodes[j])
  {
    hide Readable, Stops, Instrs;
    ghost var batch, rest := recievers.batches[0], incoming.nodes;
    DistinctConcat(tmp.nodes, rest);
    recievers.Unlocked(incoming);
    more := tmp.nodes + incoming.nodes;
    assert Disjoint(tmp.nodes, incoming.nodes);
    DistinctConcat(tmp.nodes, incoming.nodes);
    ArrivedBehind(tmp.nodes, rest, batch, incoming.nodes);
    NamedLater(all, batch, more);
  }

  /** The recievers may append a last batch after the scan has stopped. */
  method UnlockReady(incoming: Queue, tmp: Queue, recievers: Recievers, name: CString, ghost all: seq<Node>)
    returns (ghost more: seq<Node>)
    requires Ready(incoming, tmp, all, name)
    modifies incoming, incoming.nodes, recievers
    ensures incoming.mutexes == old(incoming.mutexes)
    ensures recievers.batches == Rest(old(recievers.batches))
    ensures Ready(incoming, tmp, more, name) && Arrived(all, Next(old(recievers.batches)), more)
    ensures old(incoming.nodes) <= incoming.nodes
    ensures forall j :: |old(incoming.nodes)| <= j < |incoming.nodes| ==> fresh(incoming.nodes[j])
  {
    hide Stops, NoneStops, Instrs;
    ghost var k, rest, batch := |tmp.nodes|, incoming.nodes, Next(recievers.batches);
    ghost var front := all[..k + 1];
    assert all == front + rest && front == tmp.nodes + [all[k]];
    recievers.Unlocked(incoming);
    assert Instrs(rest) + [] == Instrs(rest);
    more := front + incoming.nodes;
    ArrivedBehind(front, rest, batch, incoming.nodes);
  }

  ghost function Next(batches: seq<seq<bytes>>): seq<bytes> { if batches == [] then [] else batches[0] }
  ghost function Rest(batches: seq<seq<bytes>>): seq<seq<bytes>> { if batches == [] then [] else batches[1..] }

  /** How waiting ends. The code keeps waiting when nothing stops the scan and no further
      batch comes. */
  datatype WaitResult = Response(node: Node) | Exited | StillWaiting

  /** What the result and the queue have to be, given every node that has arrived. */
  ghost predicate WaitedFor(all: seq<Node>, name: CString, result: WaitResult, left: seq<Node>) {
    var k := FirstStop(all, name);
    match result
    case StillWaiting => k == |all|
    case Response(node) =>
      k < |all| && node == all[k] && NameOf(node.instr) == name && left == all[..k] + all[k + 1..]
    case Exited =>
      && k < |all| && NameOf(all[k].instr) != name && NameOf(all[k].instr) == Reciever.EXIT
      && left == all[..k] + all[k + 1..]
  }

  /** The node that stopped the scan is nowhere in what is left. */
  lemma TakenOut(all: seq<Node>, k: nat)
    requires Distinct(all) && k < |all|
    ensures all[k] !in all[..k] + all[k + 1..]
  {
  }

  /** Puts the skipped instructions back in front. */
  method Recombine(incoming: Queue, tmp: Queue, name: CString, ghost all: seq<Node>)
    requires Ready(incoming, tmp, all, name)
    modifies incoming, incoming.nodes, tmp, tmp.nodes
    ensures incoming.Valid() && incoming.mutexes == old(tmp.mutexes)
    ensures FirstStop(all, name) == old(|tmp.nodes|) < |all|
    ensures var k := FirstStop(all, name); incoming.nodes == all[..k] + all[k + 1..]
  {
    hide Stops, NoneStops, FirstStop;
    FirstStopIs(all, name, |tmp.nodes|);
    var ok := incoming.PrependQueue(tmp);
  }

  /** The locked part of a pass. */
  method LockedPass(incoming: Queue, tmp: Queue, recievers: Recievers, name: CString, ghost all: seq<Node>)
    returns (result: ScanResult, node: Node?)
    requires Waiting(incoming, tmp, recievers, all, name)
    modifies incoming, incoming.nodes, tmp, tmp.nodes
    ensures incoming.mutexes == old(incoming.mutexes) && tmp.mutexes == old(tmp.mutexes)
    ensures result == Nothing ==> tmp.nodes == all && incoming.nodes == [] && NoneStops(all, name)
    ensures result == Nothing ==> Waiting(incoming, tmp, recievers, all, name)
    ensures result != Nothing ==> Ready(incoming, tmp, all, name)
    ensures result == Match ==> node == all[|tmp.nodes|] && NameOf(node.instr) == name
    ensures result == Exit ==> NameOf(all[|tmp.nodes|].instr) != name
  {
    hide Stops, Readable, NameOf, Named, NoneStops;
    result, node := Scan(incoming, tmp, name, all);
  }

  /** One turn of the waiting loop: a pass over the queue, and what follows when it stops. */
  method Turn(incoming: Queue, tmp: Queue, recievers: Recievers, name: CString, ghost all: seq<Node>)
    returns (result: Option<WaitResult>, ghost more: seq<Node>)
    requires Waiting(incoming, tmp, recievers, all, name)
    modifies incoming, incoming.nodes, tmp, tmp.nodes, recievers
    ensures Arrived(all, Next(old(recievers.batches)), more) && Distinct(more)
    ensures recievers.batches == Rest(old(recievers.batches))
    ensures result == None ==> old(recievers.batches) != [] && StillGoing(incoming, tmp, recievers, all, more, name, old(tmp.mutexes))
    ensures result == None ==> forall k :: 0 <= k < |incoming.nodes| ==> fresh(incoming.nodes[k])
    ensures result.Some? ==> WaitedFor(more, name, result.value, incoming.nodes)
    ensures result.Some? && result.value != StillWaiting ==> incoming.Valid() && incoming.mutexes == old(tmp.mutexes)
  {
    hide *;
    TurnFacts(incoming, tmp, recievers, all, name);
    var scan, node := LockedPass(incoming, tmp, recievers, name, all);
    if scan == Nothing {
      result, more := AfterNothing(incoming, tmp, recievers, name, all);
    } else {
      var outcome;
      ReadyStops(incoming, tmp, all, name);
      outcome, more := FinishPass(incoming, tmp, recievers, name, all, scan, node);
      result := Some(outcome);
    }
  }

  /** Waiting goes on: everything of `all` was skipped, and a batch has come since. */
  ghost predicate StillGoing(incoming: Queue, tmp: Queue, recievers: Recievers, all: seq<Node>, more: seq<Node>,
                             name: CString, mutexes: nat)
    reads incoming, incoming.nodes, tmp, tmp.nodes, recievers
  {
    Waiting(incoming, tmp, recievers, more, name) && tmp.nodes == all && tmp.mutexes == mutexes
  }

  /** A pass has found nothing. */
  method AfterNothing(incoming: Queue, tmp: Queue, recievers: Recievers, name: CString, ghost all: seq<Node>)
    returns (result: Option<WaitResult>, ghost more: seq<Node>)
    requires Waiting(incoming, tmp, recievers, all, name)
    requires tmp.nodes == all && incoming.nodes == [] && NoneStops(all, name)
    modifies incoming, recievers
    ensures Arrived(all, Next(old(recievers.batches)), more) && Distinct(more)
    ensures recievers.batches == Rest(old(recievers.batches))
    ensures result == None ==> old(recievers.batches) != [] && StillGoing(incoming, tmp, recievers, all, more, name, old(tmp.mutexes))
    ensures result == None ==> forall k :: 0 <= k < |incoming.nodes| ==> fresh(incoming.nodes[k])
    ensures result.Some? ==> result == Some(StillWaiting) && WaitedFor(more, name, StillWaiting, incoming.nodes)
  {
    hide Instrs, Readable, NoneStops, WaitedFor;
    TurnFacts(incoming, tmp, recievers, all, name);
    if recievers.batches == [] {
      NothingStopped(all, name, incoming.nodes);
      return Some(StillWaiting), all;
    }
    more := UnlockWaiting(incoming, tmp, recievers, name, all);
    result := None;
  }

  lemma Going(incoming: Queue, tmp: Queue, recievers: Recievers, all: seq<Node>, more: seq<Node>, name: CString, mutexes: nat)
    requires StillGoing(incoming, tmp, recievers, all, more, name, mutexes)
    ensures Waiting(incoming, tmp, recievers, more, name) && tmp.nodes == all && tmp.mutexes == mutexes
  {
  }

  lemma TurnFacts(incoming: Queue, tmp: Queue, recievers: Recievers, all: seq<Node>, name: CString)
    requires Waiting(incoming, tmp, recievers, all, name)
    ensures incoming != tmp && all == tmp.nodes + incoming.nodes && Distinct(all) && Arrived(all, [], all)
    ensures var b := recievers.batches;
            if b == [] then Next(b) == [] && Rest(b) == [] else Next(b) == b[0] && Rest(b) == b[1..]
  {
    assert Instrs(all) + [] == Instrs(all);
  }

  lemma NothingStopped(all: seq<Node>, name: CString, left: seq<Node>)
    requires NoneStops(all, name)
    ensures WaitedFor(all, name, StillWaiting, left)
  {
    assert all[..|all|] == all;
    FirstStopIs(all, name, |all|);
  }

  lemma ReadyStops(incoming: Queue, tmp: Queue, all: seq<Node>, name: CString)
    requires Ready(incoming, tmp, all, name)
    ensures incoming != tmp && Distinct(all) && |tmp.nodes| < |all| && Readable(all[|tmp.nodes|].instr)
    ensures forall k :: 0 <= k < |tmp.nodes| ==> tmp.nodes[k] == all[k]
    ensures forall k :: 0 <= k < |incoming.nodes| ==> |tmp.nodes| + 1 + k < |all| && incoming.nodes[k] == all[|tmp.nodes| + 1 + k]
    ensures var b := all[|tmp.nodes|].instr; NameOf(b) == name || NameOf(b) == Reciever.EXIT
  {
    hide Readable, NameOf;
  }

  /** What follows when the scan has stopped. */
  method FinishPass(incoming: Queue, tmp: Queue, recievers: Recievers, name: CString, ghost all: seq<Node>,
                    scan: ScanResult, node: Node?)
    returns (result: WaitResult, ghost more: seq<Node>)
    requires Ready(incoming, tmp, all, name) && scan != Nothing
    requires scan == Match ==> node == all[|tmp.nodes|] && NameOf(node.instr) == name
    requires scan == Exit ==> NameOf(all[|tmp.nodes|].instr) != name
    modifies incoming, incoming.nodes, tmp, tmp.nodes, recievers
    ensures recievers.batches == Rest(old(recievers.batches)) && result != StillWaiting
    ensures Arrived(all, Next(old(recievers.batches)), more) && Distinct(more)
    ensures WaitedFor(more, name, result, incoming.nodes)
    ensures incoming.Valid() && incoming.mutexes == old(tmp.mutexes)
  {
    hide *;
    ReadyStops(incoming, tmp, all, name);
    ghost var k := |tmp.nodes|;
    more := UnlockReady(incoming, tmp, recievers, name, all);
    ReadyStops(incoming, tmp, more, name);
    Recombine(incoming, tmp, name, more);
    result := if scan == Match then Response(node) else Exited;
    ResultIsRight(all, Next(old(recievers.batches)), more, k, name, result, incoming.nodes);
  }

  lemma ResultIsRight(all: seq<Node>, batch: seq<bytes>, more: seq<Node>, k: nat, name: CString,
                      result: WaitResult, left: seq<Node>)
    requires k < |all| && Arrived(all, batch, more) && k == FirstStop(more, name) < |more|
    requires Readable(all[k].instr) && result != StillWaiting
    requires if result.Response? then result.node == all[k] && NameOf(all[k].instr) == name
             else NameOf(all[k].instr) != name && NameOf(all[k].instr) == Reciever.EXIT
    requires left == more[..k] + more[k + 1..]
    ensures WaitedFor(more, name, result, left)
  {
    hide Instrs, FirstStop, NameOf, Readable;
  }

  ghost function First(batches: seq<seq<bytes>>): seq<seq<bytes>> { if batches == [] then [] else [batches[0]] }

  lemma UsedStep(start: seq<bytes>, used: seq<seq<bytes>>, batches: seq<seq<bytes>>)
    ensures start + Flatten(used) + Next(batches) == start + Flatten(used + First(batches))
    ensures used + batches == used + First(batches) + Rest(batches)
  {
    FlattenConcat(used, First(batches));
    if batches != [] {
      assert Flatten([batches[0]]) == batches[0] + [];
      ConcatAssoc(start, Flatten(used), batches[0]);
    }
  }

  /** What has arrived since the call: the nodes that were on the queue and those of the
      batches used up. */
  ghost predicate Since(ours: seq<Node>, used: seq<seq<bytes>>, all: seq<Node>) {
    ours <= all && Distinct(all) && Instrs(all) == Instrs(ours) + Flatten(used)
  }

  lemma SinceStep(ours: seq<Node>, used: seq<seq<bytes>>, all: seq<Node>, batches: seq<seq<bytes>>, more: seq<Node>)
    requires Since(ours, used, all) && Arrived(all, Next(batches), more) && Distinct(more)
    ensures Since(ours, used + First(batches), more)
    ensures used + batches == used + First(batches) + Rest(batches)
  {
    UsedStep(Instrs(ours), used, batches);
  }

  /** The waiting loop. */
  method WaitLoop(incoming: Queue, tmp: Queue, recievers: Recievers, name: CString)
    returns (result: WaitResult, ghost all: seq<Node>, ghost used: seq<seq<bytes>>)
    requires Waiting(incoming, tmp, recievers, incoming.nodes, name) && tmp.nodes == []
    requires Since(incoming.nodes, [], incoming.nodes)
    modifies incoming, incoming.nodes, tmp, recievers
    ensures Since(old(incoming.nodes), used, all) && old(recievers.batches) == used + recievers.batches
    ensures WaitedFor(all, name, result, incoming.nodes)
    ensures result != StillWaiting ==> incoming.Valid() && incoming.mutexes == old(tmp.mutexes)
  {
    hide *;
    ghost var ours, mutexes := incoming.nodes, tmp.mutexes;
    all, used := incoming.nodes, [];
    var end: Option<WaitResult> := None;
    while end == None
      invariant end == None ==> Waiting(incoming, tmp, recievers, all, name) && tmp.mutexes == mutexes
      invariant end == None ==> forall k :: 0 <= k < |incoming.nodes| ==> incoming.nodes[k] in ours || fresh(incoming.nodes[k])
      invariant end == None ==> forall k :: 0 <= k < |tmp.nodes| ==> tmp.nodes[k] in ours || fresh(tmp.nodes[k])
      invariant Since(ours, used, all) && old(recievers.batches) == used + recievers.batches
      invariant end.Some? ==> WaitedFor(all, name, end.value, incoming.nodes)
      invariant end.Some? && end.value != StillWaiting ==> incoming.Valid() && incoming.mutexes == mutexes
      decreases |recievers.batches|, end == None
    {
      ghost var batches, was := recievers.batches, all;
      TurnFacts(incoming, tmp, recievers, all, name);
      end, all := Turn(incoming, tmp, recievers, name, all);
      if end == None {
        Going(incoming, tmp, recievers, was, all, name, mutexes);
      }
      SinceStep(ours, used, was, batches, all);
      used := used + First(batches);
    }
    result := end.value;
  }

  /** wimp_server_wait_response on the incoming queue of a server. `all` is every node that has
      arrived, in order. The result is the first of them that has the awaited name, or nothing
      when an exit comes first; that one node leaves the queue and every other keeps its
      place. */
  method WaitResponse(incoming: Queue, recievers: Recievers, name: CString, tmpMutexes: nat)
    returns (result: WaitResult, ghost all: seq<Node>)
    requires incoming.Valid() && AllReadable(Instrs(incoming.nodes))
    requires forall k :: 0 <= k < |recievers.batches| ==> AllReadable(recievers.batches[k])
    modifies incoming, incoming.nodes, recievers
    ensures |recievers.batches| <= |old(recievers.batches)|
    ensures var used := old(recievers.batches)[..|old(recievers.batches)| - |recievers.batches|];
            Since(old(incoming.nodes), used, all)
    ensures WaitedFor(all, name, result, incoming.nodes)
    ensures result.Response? ==> result.node !in incoming.nodes
    ensures result != StillWaiting ==> incoming.Valid() && incoming.mutexes == tmpMutexes
  {
    hide Readable, Instrs, Stops, FirstStop, NameOf;
    var tmp := new Queue(tmpMutexes);
    NamedBy(incoming.nodes);
    assert [] + incoming.nodes == incoming.nodes && Instrs(incoming.nodes) + [] == Instrs(incoming.nodes);
    ghost var used;
    ghost var script := recievers.batches;
    result, all, used := WaitLoop(incoming, tmp, recievers, name);
    assert script[..|used|] == used;
    if result.Response? {
      TakenOut(all, FirstStop(all, name));
    }
  }
}
