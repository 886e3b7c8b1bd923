/** The server: instructions queued for sending are routed to connections, incoming ones are
    passed on or waited for, and children are told to exit at shutdown. */
module Server {
  import opened Bytes
  import opened WireFormat
  import opened InstrQueue
  import opened HashTable
  import opened ProcessTable
  import Reciever
  import Routing

  /** What becomes of an outgoing instruction. */
  datatype Hop = Loopback | SendTo(connection: Socket) | Scrap

  /** The table entry of the destination, otherwise that of the parent; an inactive entry
      means the instruction is scrapped. */
  ghost function HopOf(me: CString, parent: Option<CString>, model: map<CString, ProcessData>, dest: CString): Hop
    reads set name | name in model :: model[name]
  {
    if dest == me then Loopback
    else if dest in model then
      if model[dest].active then SendTo(model[dest].connection) else Scrap
    else if parent.Some? && parent.value in model && model[parent.value].active then
      SendTo(model[parent.value].connection)
    else Scrap
  }

  /** The process as the routing tree sees it. */
  ghost function RoutingProcess(parent: Option<CString>, model: map<CString, ProcessData>): Routing.Process
    reads set name | name in model :: model[name]
  {
    Routing.Process(parent, map name | name in model :: model[name].active)
  }

  /** The server takes the hop of the routing tree, over the connection of the next process. */
  lemma HopIsRoutingHop(me: CString, parent: Option<CString>, model: map<CString, ProcessData>, dest: CString)
    ensures var hop := Routing.Hop(RoutingProcess(parent, model), me, dest);
            && (hop.To? ==> hop.next in model)
            && HopOf(me, parent, model, dest)
            == match hop
               case Arrived => Loopback
               case Scrapped => Scrap
               case To(next) => SendTo(model[next].connection)
  {
  }

  /** The frames of the instructions that take the given hop, in order. */
  ghost function FramesFor(instrs: seq<Instr>, hops: seq<Hop>, hop: Hop): seq<bytes>
    requires |instrs| == |hops|
  {
    if instrs == [] then []
    else (if hops[0] == hop then [Frame(instrs[0])] else []) + FramesFor(instrs[1..], hops[1..], hop)
  }

  /** ks lists positions of a list of n, in order and each once. */
  ghost predicate Positions(ks: seq<nat>, n: nat) {
    && (forall j :: 0 <= j < |ks| ==> ks[j] < n)
    && (forall i, j :: 0 <= i < j < |ks| ==> ks[i] < ks[j])
  }

  /** The frames of the instructions at these positions. */
  ghost function FramesAt(instrs: seq<Instr>, ks: seq<nat>): seq<bytes>
    requires Positions(ks, |instrs|)
  {
    seq(|ks|, j requires 0 <= j < |ks| => Frame(instrs[ks[j]]))
  }

  ghost function Later(ks: seq<nat>): (r: seq<nat>)
    ensures |r| == |ks| && forall j :: 0 <= j < |ks| ==> r[j] == ks[j] + 1
  {
    seq(|ks|, j requires 0 <= j < |ks| => ks[j] + 1)
  }

  lemma LaterPositions(ks: seq<nat>, n: nat)
    requires Positions(ks, n)
    ensures Positions(Later(ks), n + 1) && Positions([0] + Later(ks), n + 1)
    ensures forall k: nat :: k in Later(ks) <==> k > 0 && k - 1 in ks
  {
    forall k: nat ensures k in Later(ks) <==> k > 0 && k - 1 in ks {
      if k > 0 && k - 1 in ks {
        var j :| 0 <= j < |ks| && ks[j] == k - 1;
        assert Later(ks)[j] == k;
      }
    }
  }

  lemma FramesLater(instrs: seq<Instr>, ks: seq<nat>)
    requires instrs != [] && Positions(ks, |instrs| - 1)
    ensures Positions(Later(ks), |instrs|) && Positions([0] + Later(ks), |instrs|)
    ensures FramesAt(instrs, Later(ks)) == FramesAt(instrs[1..], ks)
    ensures FramesAt(instrs, [0] + Later(ks)) == [Frame(instrs[0])] + FramesAt(instrs[1..], ks)
  {
    hide Frame;
    LaterPositions(ks, |instrs| - 1);
  }

  /** The frames for a hop are those at exactly the positions that have it. */
  lemma {:induction false} FramesForAre(instrs: seq<Instr>, hops: seq<Hop>, hop: Hop) returns (ks: seq<nat>)
    requires |instrs| == |hops|
    ensures Positions(ks, |instrs|) && FramesFor(instrs, hops, hop) == FramesAt(instrs, ks)
    ensures forall k :: 0 <= k < |instrs| ==> (k in ks <==> hops[k] == hop)
    decreases |instrs|
  {
    hide Frame, FramesAt, Positions, Later;
    if instrs == [] {
      ks := [];
      NoFrames(instrs);
    } else {
      var rest := FramesForAre(instrs[1..], hops[1..], hop);
      FramesLater(instrs, rest);
      LaterPositions(rest, |instrs| - 1);
      ks := if hops[0] == hop then [0] + Later(rest) else Later(rest);
      assert [] + FramesFor(instrs[1..], hops[1..], hop) == FramesFor(instrs[1..], hops[1..], hop);
      forall k | 0 < k < |instrs| ensures k in ks <==> hops[k] == hop {
        assert hops[1..][k - 1] == hops[k];
      }
    }
  }

  lemma NoFrames(instrs: seq<Instr>)
    ensures Positions([], |instrs|) && FramesAt(instrs, []) == []
  {
  }

  /** The nodes carry these instructions. */
  ghost predicate Carry(nodes: seq<Node>, instrs: seq<Instr>) {
    && |nodes| == |instrs|
    && forall k :: 0 <= k < |nodes| ==> Parses(instrs[k]) && nodes[k].instr == Frame(instrs[k])
  }

  lemma DestOfFrame(i: Instr, name: CString)
    requires Parses(i)
    ensures Parse(Frame(i)) == MetaOf(i)
    ensures StrcmpEq(Frame(i), MetaOf(i).dest, name) == Some(i.dest == name)
    ensures CStringAt(Frame(i), MetaOf(i).dest) == Some(i.dest)
  {
    ParseInvertsBundle(i);
    MetaOfPointsAtFields(i);
    StrcmpDecides(Frame(i), DEST_OFFSET, name);
  }

  class Server {
    const processName: CString
    var parent: Option<CString>
    const ptable: ProcessTable
    const incomingmsg: Queue
    const outgoingmsg: Queue
    const sendbuffer: array<byte>

    ghost predicate TableOk()
      reads this, ptable, ptable.hashTable, ptable.hashTable.table, ptable.hashTable.entries
    {
      ptable.Valid()
    }

    ghost predicate Valid()
      reads this, ptable, ptable.hashTable, ptable.hashTable.table, ptable.hashTable.entries
      reads incomingmsg, incomingmsg.nodes, outgoingmsg, outgoingmsg.nodes
    {
      && TableOk() && incomingmsg.Valid() && outgoingmsg.Valid()
      && incomingmsg != outgoingmsg && Disjoint(outgoingmsg.nodes, incomingmsg.nodes)
      && sendbuffer.Length == Reciever.BUFFER_BYTES
    }

    constructor (processName: CString, ptable: ProcessTable)
      requires ptable.Valid()
      ensures Valid() && this.processName == processName && this.ptable == ptable && parent == None
      ensures incomingmsg.nodes == [] && outgoingmsg.nodes == []
      ensures fresh(incomingmsg) && fresh(outgoingmsg) && fresh(sendbuffer)
    {
      this.processName, this.ptable, parent := processName, ptable, None;
      incomingmsg := new Queue(0);
      outgoingmsg := new Queue(1);
      sendbuffer := new byte[Reciever.BUFFER_BYTES](_ => 0);
    }

    /** wimp_server_add: bundles an instruction and queues it for sending. */
    method Add(dest: CString, instr: CString, args: bytes)
      requires Valid()
      modifies outgoingmsg, outgoingmsg.nodes
      ensures Valid() && incomingmsg.nodes == old(incomingmsg.nodes)
      ensures old(outgoingmsg.nodes) <= outgoingmsg.nodes
      ensures forall k :: |old(outgoingmsg.nodes)| <= k < |outgoingmsg.nodes| ==> fresh(outgoingmsg.nodes[k])
      ensures Instrs(outgoingmsg.nodes)
           == old(Instrs(outgoingmsg.nodes)) + [Frame(Instr(dest, processName, instr, args))]
    {
      hide Frame, Instrs, TableOk, Queue.Valid;
      var bundle := Bundle(processName, dest, instr, args);
      outgoingmsg.Add(bundle[..]);
    }

    /** Sends a frame in chunks of at most 512 bytes, whatever each call takes of them. */
    method SendFrame(connection: Socket, frame: bytes)
      requires sendbuffer.Length == Reciever.BUFFER_BYTES
      modifies connection, sendbuffer
      ensures connection.stream == old(connection.stream) + frame
    {
      var sentBytes := 0;
      while sentBytes < |frame|
        invariant sentBytes <= |frame|
        invariant connection.stream == old(connection.stream) + frame[..sentBytes]
      {
        ghost var start := old(connection.stream);
        var bytesToSend := |frame| - sentBytes;
        if bytesToSend > Reciever.BUFFER_BYTES {
          bytesToSend := Reciever.BUFFER_BYTES;
        }
        var sent := SendChunk(connection, frame[sentBytes..sentBytes + bytesToSend]);
        ChunkSent(start, frame, sentBytes, bytesToSend, sent);
        sentBytes := sentBytes + sent;
      }
      assert frame[..|frame|] == frame;
    }

    lemma ChunkSent(start: bytes, frame: bytes, at: nat, size: nat, sent: nat)
      requires sent <= size && at + size <= |frame|
      ensures start + frame[..at] + frame[at..at + size][..sent] == start + frame[..at + sent]
    {
      assert frame[..at] + frame[at..at + size][..sent] == frame[..at + sent];
    }

    /** Copies a chunk to the send buffer and offers it to the socket. */
    method SendChunk(connection: Socket, chunk: bytes) returns (sent: nat)
      requires sendbuffer.Length == Reciever.BUFFER_BYTES && 0 < |chunk| <= Reciever.BUFFER_BYTES
      modifies connection, sendbuffer
      ensures 1 <= sent <= |chunk| && connection.stream == old(connection.stream) + chunk[..sent]
    {
      hide Overwrite;
      var next := CopyInto(sendbuffer, 0, chunk);
      assert sendbuffer[..next] == chunk;
      sent := connection.Send(sendbuffer[..next]);
      forall k | 0 <= k < sendbuffer.Length {
        sendbuffer[k] := 0;
      }
    }

    ghost function Connections(): set<Socket>
      reads ptable.hashTable
    {
      set name | name in ptable.hashTable.model :: ptable.hashTable.model[name].connection
    }

    /** Where an instruction for `dest` goes. */
    ghost function HopFor(dest: CString): Hop
      reads this, ptable.hashTable, set name | name in ptable.hashTable.model :: ptable.hashTable.model[name]
    {
      HopOf(processName, parent, ptable.hashTable.model, dest)
    }

    /** Where the frame in hand goes: to this process, over a connection, or nowhere. */
    method FindHop(node: Node, ghost i: Instr) returns (toSelf: bool, target: Socket?)
      requires Valid() && Parses(i) && node.instr == Frame(i)
      ensures HopFor(i.dest) == if toSelf then Loopback else if target != null then SendTo(target) else Scrap
      ensures target != null ==> !toSelf && target in Connections()
    {
      hide Parse, StrcmpEq, CStringAt, Frame, Instrs, Parses, Queue.Valid;
      DestOfFrame(i, processName);
      toSelf, target := false, null;
      var meta := Parse(node.instr);
      var same := StrcmpEq(node.instr, meta.dest, processName);
      if same == Some(true) {
        return true, null;
      }
      var dest := CStringAt(node.instr, meta.dest);
      var data := ptable.Get(dest);
      if data == None {
        data := ptable.Get(parent);
      }
      if data.Some? && data.value.active {
        target := data.value.connection;
      }
    }

    /** One round of the sending loop. */
    method SendOne(node: Node, ghost i: Instr)
      requires Valid() && Parses(i) && node.instr == Frame(i)
      requires sendbuffer.Length == Reciever.BUFFER_BYTES
      modifies incomingmsg, incomingmsg.nodes, sendbuffer, Connections()
      ensures Valid() && outgoingmsg.nodes == old(outgoingmsg.nodes)
      ensures old(incomingmsg.nodes) <= incomingmsg.nodes
      ensures forall k :: |old(incomingmsg.nodes)| <= k < |incomingmsg.nodes| ==> fresh(incomingmsg.nodes[k])
      ensures Instrs(incomingmsg.nodes)
           == old(Instrs(incomingmsg.nodes)) + (if old(HopFor(i.dest)) == Loopback then [Frame(i)] else [])
      ensures forall c :: c in Connections() ==>
                c.stream == old(c.stream) + (if old(HopFor(i.dest)) == SendTo(c) then Frame(i) else [])
    {
      hide Frame, Instrs, Parses, TableOk, HopFor, HopOf;
      var toSelf, target := FindHop(node, i);
      assert Instrs(incomingmsg.nodes) + [] == Instrs(incomingmsg.nodes);
      if toSelf {
        incomingmsg.Add(node.instr);
      } else if target != null {
        SendFrame(target, node.instr);
      }
    }

    ghost function Hops(instrs: seq<Instr>): (hops: seq<Hop>)
      reads this, ptable.hashTable, set name | name in ptable.hashTable.model :: ptable.hashTable.model[name]
      ensures |hops| == |instrs|
    {
      if instrs == [] then [] else [HopFor(instrs[0].dest)] + Hops(instrs[1..])
    }

    /** What is still to be sent completes the incoming queue and every stream. */
    ghost predicate ToGo(instrs: seq<Instr>, hops: seq<Hop>, incoming: seq<bytes>, streams: map<Socket, bytes>)
      requires |instrs| == |hops|
      reads incomingmsg, ptable.hashTable, Connections()
    {
      && Instrs(incomingmsg.nodes) + FramesFor(instrs, hops, Loopback) == incoming
      && forall c :: c in Connections() ==>
           c in streams && c.stream + Flatten(FramesFor(instrs, hops, SendTo(c))) == streams[c]
    }

    lemma FlattenOne(b: bytes, f: seq<bytes>)
      ensures Flatten([b] + f) == b + Flatten(f)
    {
      assert ([b] + f)[1..] == f;
    }

    lemma FramesForStep(instrs: seq<Instr>, hops: seq<Hop>, hop: Hop, start: bytes, queue: seq<bytes>)
      requires instrs != [] && |instrs| == |hops|
      ensures start + (if hops[0] == hop then Frame(instrs[0]) else []) + Flatten(FramesFor(instrs[1..], hops[1..], hop))
           == start + Flatten(FramesFor(instrs, hops, hop))
      ensures queue + (if hops[0] == hop then [Frame(instrs[0])] else []) + FramesFor(instrs[1..], hops[1..], hop)
           == queue + FramesFor(instrs, hops, hop)
    {
      hide Frame;
      var f := FramesFor(instrs[1..], hops[1..], hop);
      if hops[0] == hop {
        var one := [Frame(instrs[0])];
        assert FramesFor(instrs, hops, hop) == one + f;
        FlattenOne(Frame(instrs[0]), f);
        ConcatAssoc(start, Frame(instrs[0]), Flatten(f));
        ConcatAssoc(queue, one, f);
      } else {
        assert FramesFor(instrs, hops, hop) == [] + f == f;
        assert start + [] == start && queue + [] == queue;
      }
    }

    method SendNext(node: Node, ghost instrs: seq<Instr>, ghost hops: seq<Hop>,
                    ghost incoming: seq<bytes>, ghost streams: map<Socket, bytes>)
      requires Valid() && instrs != [] && hops == Hops(instrs)
      requires Parses(instrs[0]) && node.instr == Frame(instrs[0])
      requires ToGo(instrs, hops, incoming, streams)
      modifies incomingmsg, incomingmsg.nodes, sendbuffer, Connections()
      ensures Valid() && outgoingmsg.nodes == old(outgoingmsg.nodes)
      ensures old(incomingmsg.nodes) <= incomingmsg.nodes
      ensures forall j :: |old(incomingmsg.nodes)| <= j < |incomingmsg.nodes| ==> fresh(incomingmsg.nodes[j])
      ensures hops[1..] == Hops(instrs[1..]) && ToGo(instrs[1..], hops[1..], incoming, streams)
    {
      assert hops[0] == HopFor(instrs[0].dest) && hops[1..] == Hops(instrs[1..]);
      SendAndAccount(node, instrs, hops, incoming, streams);
    }

    method SendAndAccount(node: Node, ghost instrs: seq<Instr>, ghost hops: seq<Hop>,
                          ghost incoming: seq<bytes>, ghost streams: map<Socket, bytes>)
      requires Valid() && instrs != [] && |instrs| == |hops| && hops[0] == HopFor(instrs[0].dest)
      requires Parses(instrs[0]) && node.instr == Frame(instrs[0])
      requires ToGo(instrs, hops, incoming, streams)
      modifies incomingmsg, incomingmsg.nodes, sendbuffer, Connections()
      ensures Valid() && outgoingmsg.nodes == old(outgoingmsg.nodes)
      ensures old(incomingmsg.nodes) <= incomingmsg.nodes
      ensures forall j :: |old(incomingmsg.nodes)| <= j < |incomingmsg.nodes| ==> fresh(incomingmsg.nodes[j])
      ensures ToGo(instrs[1..], hops[1..], incoming, streams)
    {
      hide *;
      ghost var queue := Instrs(incomingmsg.nodes);
      ghost var sent := BeforeSending(instrs, hops, incoming, streams);
      SendOne(node, instrs[0]);
      AfterSending(instrs, hops, incoming, streams, queue, sent);
    }

    /** `queue` and `sent` are where the incoming queue and the streams stand. */
    ghost predicate Stands(instrs: seq<Instr>, hops: seq<Hop>, incoming: seq<bytes>, streams: map<Socket, bytes>,
                           queue: seq<bytes>, sent: map<Socket, bytes>)
      requires |instrs| == |hops|
    {
      && queue + FramesFor(instrs, hops, Loopback) == incoming
      && forall c :: c in sent ==>
           c in streams && sent[c] + Flatten(FramesFor(instrs, hops, SendTo(c))) == streams[c]
    }

    lemma BeforeSending(instrs: seq<Instr>, hops: seq<Hop>, incoming: seq<bytes>, streams: map<Socket, bytes>)
      returns (sent: map<Socket, bytes>)
      requires |instrs| == |hops| && Valid() && ToGo(instrs, hops, incoming, streams)
      ensures Stands(instrs, hops, incoming, streams, Instrs(incomingmsg.nodes), sent)
      ensures sendbuffer.Length == Reciever.BUFFER_BYTES
      ensures forall c :: c in Connections() ==> c in sent && sent[c] == c.stream
    {
      hide FramesFor, Flatten, Instrs, TableOk, Queue.Valid;
      sent := map c | c in Connections() :: c.stream;
    }

    lemma AfterSending(instrs: seq<Instr>, hops: seq<Hop>, incoming: seq<bytes>, streams: map<Socket, bytes>,
                       queue: seq<bytes>, sent: map<Socket, bytes>)
      requires instrs != [] && |instrs| == |hops| && Stands(instrs, hops, incoming, streams, queue, sent)
      requires Instrs(incomingmsg.nodes) == queue + (if hops[0] == Loopback then [Frame(instrs[0])] else [])
      requires forall c :: c in Connections() ==>
                 c in sent && c.stream == sent[c] + (if hops[0] == SendTo(c) then Frame(instrs[0]) else [])
      ensures ToGo(instrs[1..], hops[1..], incoming, streams)
    {
      hide Frame, FramesFor, Flatten, Instrs, Connections;
      FramesForStep(instrs, hops, Loopback, [], queue);
      forall c | c in Connections()
        ensures c in streams && c.stream + Flatten(FramesFor(instrs[1..], hops[1..], SendTo(c))) == streams[c]
      {
        FramesForStep(instrs, hops, SendTo(c), sent[c], []);
      }
    }

    /** The state at a head of the sending loop: the node in hand is the first to go. */
    ghost predicate Sending(currentn: Node?, instrs: seq<Instr>, hops: seq<Hop>,
                            incoming: seq<bytes>, streams: map<Socket, bytes>)
      reads this, ptable, ptable.hashTable, ptable.hashTable.table, ptable.hashTable.entries
      reads set name | name in ptable.hashTable.model :: ptable.hashTable.model[name]
      reads incomingmsg, incomingmsg.nodes, outgoingmsg, outgoingmsg.nodes, Connections()
    {
      && Valid() && hops == Hops(instrs) && ToGo(instrs, hops, incoming, streams)
      && (currentn == null ==> instrs == [] && outgoingmsg.nodes == [])
      && (currentn != null ==>
            instrs != [] && Parses(instrs[0]) && currentn.instr == Frame(instrs[0])
            && Carry(outgoingmsg.nodes, instrs[1..]))
    }

    /** Taking a node changes nothing but the outgoing queue. */
    method PopOutgoing(ghost instrs: seq<Instr>, ghost hops: seq<Hop>,
                       ghost incoming: seq<bytes>, ghost streams: map<Socket, bytes>)
      returns (next: Node?)
      requires Valid() && Carry(outgoingmsg.nodes, instrs)
      requires hops == Hops(instrs) && ToGo(instrs, hops, incoming, streams)
      modifies outgoingmsg
      ensures Sending(next, instrs, hops, incoming, streams)
    {
      hide TableOk, Frame, Parses, Hops, Instrs, FramesFor, Flatten;
      next := outgoingmsg.Pop();
    }

    /** One turn of the sending loop: send the node in hand, then take the next. */
    method SendTurn(currentn: Node, ghost instrs: seq<Instr>, ghost hops: seq<Hop>,
                    ghost incoming: seq<bytes>, ghost streams: map<Socket, bytes>)
      returns (next: Node?)
      requires Sending(currentn, instrs, hops, incoming, streams)
      modifies outgoingmsg, incomingmsg, incomingmsg.nodes, sendbuffer, Connections()
      ensures instrs != [] && |hops| == |instrs| && Sending(next, instrs[1..], hops[1..], incoming, streams)
      ensures old(incomingmsg.nodes) <= incomingmsg.nodes
      ensures forall j :: |old(incomingmsg.nodes)| <= j < |incomingmsg.nodes| ==> fresh(incomingmsg.nodes[j])
    {
      hide Frame, Parses, ToGo, Hops, Valid;
      SendNext(currentn, instrs, hops, incoming, streams);
      next := PopOutgoing(instrs[1..], hops[1..], incoming, streams);
    }

    /** Sends the whole outgoing queue. */
    method SendAll(ghost instrs: seq<Instr>)
      requires Valid() && Carry(outgoingmsg.nodes, instrs)
      modifies outgoingmsg, incomingmsg, incomingmsg.nodes, sendbuffer, Connections()
      ensures Valid() && outgoingmsg.nodes == []
      ensures Instrs(incomingmsg.nodes)
           == old(Instrs(incomingmsg.nodes)) + FramesFor(instrs, old(Hops(instrs)), Loopback)
      ensures forall c :: c in Connections() ==>
                c.stream == old(c.stream) + Flatten(FramesFor(instrs, old(Hops(instrs)), SendTo(c)))
    {
      ghost var hops := Hops(instrs);
      ghost var incoming := Instrs(incomingmsg.nodes) + FramesFor(instrs, hops, Loopback);
      ghost var streams := map c | c in Connections() :: c.stream + Flatten(FramesFor(instrs, hops, SendTo(c)));
      assert ToGo(instrs, hops, incoming, streams);
      hide *;
      var currentn := PopOutgoing(instrs, hops, incoming, streams);
      Drain(currentn, instrs, hops, incoming, streams);
      FinishSending(incoming, streams);
    }

    lemma {:induction false} HopsAre(instrs: seq<Instr>, k: nat)
      requires k < |instrs|
      ensures Hops(instrs)[k] == HopFor(instrs[k].dest)
    {
      if k > 0 {
        HopsAre(instrs[1..], k - 1);
      }
    }

    /** The instructions that take the hop, and what is sent of them. */
    lemma SentFor(instrs: seq<Instr>, hop: Hop) returns (ks: seq<nat>)
      ensures Positions(ks, |instrs|)
      ensures forall k :: 0 <= k < |instrs| ==> (k in ks <==> HopFor(instrs[k].dest) == hop)
      ensures FramesFor(instrs, Hops(instrs), hop) == FramesAt(instrs, ks)
    {
      ks := FramesForAre(instrs, Hops(instrs), hop);
      forall k | 0 <= k < |instrs| ensures Hops(instrs)[k] == HopFor(instrs[k].dest) {
        HopsAre(instrs, k);
      }
    }

    /** `sent` are the frames of exactly the instructions that take the hop, in their order. */
    ghost predicate SentExactly(instrs: seq<Instr>, hop: Hop, sent: seq<bytes>)
      reads this, ptable.hashTable, set name | name in ptable.hashTable.model :: ptable.hashTable.model[name]
    {
      exists ks :: Positions(ks, |instrs|) && sent == FramesAt(instrs, ks)
        && forall k :: 0 <= k < |instrs| ==> (k in ks <==> HopFor(instrs[k].dest) == hop)
    }

    lemma SentIsExact(instrs: seq<Instr>, hop: Hop)
      ensures SentExactly(instrs, hop, FramesFor(instrs, Hops(instrs), hop))
    {
      hide HopFor, Frame;
      var ks := SentFor(instrs, hop);
    }

    /** wimp_server_send_instructions: empties the outgoing queue. Every connection is sent the
        instructions whose hop it is, whole and in queue order, and no others; the ones for this
        process go to the incoming queue; the rest is scrapped. */
    method SendInstructions(ghost instrs: seq<Instr>) returns (ghost looped: seq<bytes>, ghost sent: map<Socket, seq<bytes>>)
      requires Valid() && Carry(outgoingmsg.nodes, instrs)
      modifies outgoingmsg, incomingmsg, incomingmsg.nodes, sendbuffer, Connections()
      ensures Valid() && outgoingmsg.nodes == []
      ensures Instrs(incomingmsg.nodes) == old(Instrs(incomingmsg.nodes)) + looped
      ensures old(SentExactly(instrs, Loopback, looped))
      ensures forall c :: c in Connections() ==>
                c in sent && old(SentExactly(instrs, SendTo(c), sent[c])) && c.stream == old(c.stream) + Flatten(sent[c])
    {
      looped, sent := Shares(instrs);
      hide *;
      SendAll(instrs);
    }

    /** What each connection and this process will get. */
    lemma Shares(instrs: seq<Instr>) returns (looped: seq<bytes>, sent: map<Socket, seq<bytes>>)
      ensures looped == FramesFor(instrs, Hops(instrs), Loopback) && SentExactly(instrs, Loopback, looped)
      ensures forall c :: c in Connections() ==>
                c in sent && sent[c] == FramesFor(instrs, Hops(instrs), SendTo(c)) && SentExactly(instrs, SendTo(c), sent[c])
    {
      hide Frame, SentExactly, HopFor, Connections;
      looped := FramesFor(instrs, Hops(instrs), Loopback);
      sent := map c | c in Connections() :: FramesFor(instrs, Hops(instrs), SendTo(c));
      SentIsExact(instrs, Loopback);
      forall c | c in Connections() ensures SentExactly(instrs, SendTo(c), sent[c]) {
        SentIsExact(instrs, SendTo(c));
      }
    }

    /** The sending loop. */
    method Drain(first: Node?, ghost instrs: seq<Instr>, ghost hops: seq<Hop>,
                 ghost incoming: seq<bytes>, ghost streams: map<Socket, bytes>)
      requires |hops| == |instrs| && Sending(first, instrs, hops, incoming, streams)
      modifies outgoingmsg, incomingmsg, incomingmsg.nodes, sendbuffer, Connections()
      ensures Sending(null, [], [], incoming, streams)
    {
      hide *;
      ghost var todo, hopsToGo := instrs, hops;
      ghost var was := incomingmsg.nodes;
      var currentn := first;
      while currentn != null
        invariant |hopsToGo| == |todo|
        invariant Sending(currentn, todo, hopsToGo, incoming, streams)
        invariant was <= incomingmsg.nodes
        invariant forall j :: |was| <= j < |incomingmsg.nodes| ==> fresh(incomingmsg.nodes[j])
        decreases |todo|
      {
        currentn := SendTurn(currentn, todo, hopsToGo, incoming, streams);
        todo, hopsToGo := todo[1..], hopsToGo[1..];
      }
      NothingToSend(todo, hopsToGo, incoming, streams);
    }

    lemma NothingToSend(instrs: seq<Instr>, hops: seq<Hop>, incoming: seq<bytes>, streams: map<Socket, bytes>)
      requires Sending(null, instrs, hops, incoming, streams)
      ensures instrs == [] && hops == []
    {
    }

    lemma FinishSending(incoming: seq<bytes>, streams: map<Socket, bytes>)
      requires Sending(null, [], [], incoming, streams)
      ensures Valid() && outgoingmsg.nodes == [] && Instrs(incomingmsg.nodes) == incoming
      ensures forall c :: c in Connections() ==> c in streams && c.stream == streams[c]
    {
      hide Valid;
      assert Instrs(incomingmsg.nodes) + [] == Instrs(incomingmsg.nodes);
      forall c | c in Connections() ensures c in streams && c.stream == streams[c] {
        assert c.stream + [] == c.stream;
      }
    }

    /** wimp_server_instr_routed: passes a node for another process on to the outgoing queue. */
    method InstrRouted(dest: CString, node: Node) returns (routed: bool)
      requires Valid() && node !in outgoingmsg.nodes && node !in incomingmsg.nodes
      modifies outgoingmsg, outgoingmsg.nodes, node
      ensures Valid() && incomingmsg.nodes == old(incomingmsg.nodes)
      ensures routed <==> dest != processName
      ensures outgoingmsg.nodes == old(outgoingmsg.nodes) + (if routed then [node] else [])
    {
      hide TableOk;
      if dest != processName {
        outgoingmsg.AddExisting(node);
        return true;
      }
      return false;
    }

    ghost function ExitOf(e: Entry<ProcessData>): seq<bytes> {
      if e.value.relation == Child then [Frame(Instr(e.key, processName, Reciever.EXIT, []))] else []
    }

    /** The exits queued for the children among the visited entries. */
    ghost function Exits(visited: seq<Entry<ProcessData>>): seq<bytes> {
      if visited == [] then [] else Exits(visited[..|visited| - 1]) + ExitOf(visited[|visited| - 1])
    }

    lemma NoExits(entries: seq<Entry<ProcessData>>, before: seq<bytes>)
      ensures before + Exits(entries[..0]) == before
    {
    }

    lemma TableIsOk()
      requires Valid()
      ensures ptable.hashTable.Valid()
    {
    }

    method QueueExit(e: Entry<ProcessData>)
      requires Valid()
      modifies outgoingmsg, outgoingmsg.nodes
      ensures Valid() && incomingmsg.nodes == old(incomingmsg.nodes)
      ensures old(outgoingmsg.nodes) <= outgoingmsg.nodes
      ensures forall j :: old(|outgoingmsg.nodes|) <= j < |outgoingmsg.nodes| ==> fresh(outgoingmsg.nodes[j])
      ensures Instrs(outgoingmsg.nodes) == old(Instrs(outgoingmsg.nodes)) + ExitOf(e)
    {
      hide Valid, Instrs, Frame;
      if e.value.relation == Child {
        Add(e.key, Reciever.EXIT, []);
      }
    }

    lemma ExitsStep(entries: seq<Entry<ProcessData>>, k: nat, before: seq<bytes>)
      requires k < |entries|
      ensures Exits(entries[..k + 1]) == Exits(entries[..k]) + ExitOf(entries[k])
      ensures before + Exits(entries[..k]) + ExitOf(entries[k]) == before + Exits(entries[..k + 1])
    {
      assert entries[..k + 1][..k] == entries[..k];
      ConcatAssoc(before, Exits(entries[..k]), ExitOf(entries[k]));
    }

    /** The exit broadcast of wimp_server_free: one exit for every child that iteration over the
        process table visits. */
    method QueueExits() returns (ghost visited: seq<Entry<ProcessData>>)
      requires Valid()
      modifies outgoingmsg, outgoingmsg.nodes
      ensures Valid() && incomingmsg.nodes == old(incomingmsg.nodes)
      ensures visited == Concat(ptable.hashTable.chains[..|ptable.hashTable.chains| - 1])
      ensures Instrs(outgoingmsg.nodes) == old(Instrs(outgoingmsg.nodes)) + Exits(visited)
    {
      TableIsOk();
      hide *;
      var entries := ptable.hashTable.Iterate();
      visited := entries;
      QueueAll(entries);
    }

    method QueueAll(entries: seq<Entry<ProcessData>>)
      requires Valid()
      modifies outgoingmsg, outgoingmsg.nodes
      ensures Valid() && incomingmsg.nodes == old(incomingmsg.nodes)
      ensures Instrs(outgoingmsg.nodes) == old(Instrs(outgoingmsg.nodes)) + Exits(entries)
    {
      hide *;
      ghost var was, before := outgoingmsg.nodes, Instrs(outgoingmsg.nodes);
      NoExits(entries, before);
      for k := 0 to |entries|
        invariant Valid() && incomingmsg.nodes == old(incomingmsg.nodes)
        invariant was <= outgoingmsg.nodes
        invariant forall j :: |was| <= j < |outgoingmsg.nodes| ==> fresh(outgoingmsg.nodes[j])
        invariant Instrs(outgoingmsg.nodes) == before + Exits(entries[..k])
      {
        QueueExit(entries[k]);
        ExitsStep(entries, k, before);
      }
      assert entries[..|entries|] == entries;
    }

    lemma ExitDest(a: CString, b: CString)
      requires Frame(Instr(a, processName, Reciever.EXIT, [])) == Frame(Instr(b, processName, Reciever.EXIT, []))
      ensures a == b
    {
      MetaOfPointsAtFields(Instr(a, processName, Reciever.EXIT, []));
      MetaOfPointsAtFields(Instr(b, processName, Reciever.EXIT, []));
    }

    /** ks are the positions of exactly the children among the entries. */
    static ghost predicate ChildrenAt(visited: seq<Entry<ProcessData>>, ks: seq<nat>) {
      && Positions(ks, |visited|)
      && forall k :: 0 <= k < |visited| ==> (k in ks <==> visited[k].value.relation == Child)
    }

    static lemma ChildrenStep(visited: seq<Entry<ProcessData>>, ks: seq<nat>)
      requires visited != [] && ChildrenAt(visited[..|visited| - 1], ks)
      ensures var last := |visited| - 1;
              ChildrenAt(visited, ks + if visited[last].value.relation == Child then [last] else [])
    {
      var front, last := visited[..|visited| - 1], |visited| - 1;
      assert forall k :: 0 <= k < last ==> front[k] == visited[k];
      assert last !in ks;
      assert ks + [] == ks;
    }

    /** The exits are those for exactly the children among the entries, in their order. */
    lemma {:induction false} ExitsAre(visited: seq<Entry<ProcessData>>) returns (ks: seq<nat>)
      ensures ChildrenAt(visited, ks) && |Exits(visited)| == |ks|
      ensures forall j :: 0 <= j < |ks| ==>
                ks[j] < |visited| && Exits(visited)[j]
                == Frame(Instr(visited[ks[j]].key, processName, ['e' as int, 'x' as int, 'i' as int, 't' as int], []))
      decreases |visited|
    {
      hide Frame;
      ks := [];
      if visited != [] {
        var last := |visited| - 1;
        var front := visited[..last];
        var before := ExitsAre(front);
        ChildrenStep(visited, before);
        var more := if visited[last].value.relation == Child then [last] else [];
        var exits, one := Exits(front), ExitOf(visited[last]);
        assert Exits(visited) == exits + one && |one| == |more|;
        hide ChildrenAt, Exits, ExitOf;
        ks := before + more;
        assert forall j :: 0 <= j < |before| ==> front[before[j]] == visited[before[j]] && (exits + one)[j] == exits[j];
      }
    }

    ghost predicate IsChild(e: Entry<ProcessData>, name: CString) {
      e.key == name && e.value.relation == Child
    }

    lemma OneExit(e: Entry<ProcessData>, name: CString)
      ensures multiset(ExitOf(e))[Frame(Instr(name, processName, Reciever.EXIT, []))] == if IsChild(e, name) then 1 else 0
    {
      hide Frame;
      if Frame(Instr(e.key, processName, Reciever.EXIT, [])) == Frame(Instr(name, processName, Reciever.EXIT, [])) {
        ExitDest(e.key, name);
      }
    }

    /** The last entry is the child, or one of the others, and not both. */
    lemma LastChild(visited: seq<Entry<ProcessData>>, name: CString)
      requires visited != [] && UniqueKeys(visited)
      ensures var last := |visited| - 1;
              && UniqueKeys(visited[..last])
              && ((exists k :: 0 <= k < |visited| && IsChild(visited[k], name)) <==>
                    IsChild(visited[last], name) || exists k :: 0 <= k < last && IsChild(visited[..last][k], name))
              && !(IsChild(visited[last], name) && exists k :: 0 <= k < last && IsChild(visited[..last][k], name))
    {
      var front := visited[..|visited| - 1];
      assert forall k :: 0 <= k < |front| ==> front[k] == visited[k];
      if exists k :: 0 <= k < |visited| && IsChild(visited[k], name) {
        var k :| 0 <= k < |visited| && IsChild(visited[k], name);
        assert k < |front| ==> IsChild(front[k], name);
      }
    }

    lemma {:induction false} ExitsOnce(visited: seq<Entry<ProcessData>>, name: CString)
      requires UniqueKeys(visited)
      ensures multiset(Exits(visited))[Frame(Instr(name, processName, Reciever.EXIT, []))]
           == if exists k :: 0 <= k < |visited| && IsChild(visited[k], name) then 1 else 0
    {
      hide Frame;
      var f := Frame(Instr(name, processName, Reciever.EXIT, []));
      if visited != [] {
        var last := |visited| - 1;
        var e := visited[last];
        ExitsOnce(visited[..last], name);
        assert Exits(visited) == Exits(visited[..last]) + ExitOf(e);
        OneExit(e, name);
        LastChild(visited, name);
        hide Exits, ExitOf, IsChild, UniqueKeys;
      }
    }

    /** Which processes are told to exit: exactly the children outside the last bucket, each by
        one exit. */
    lemma ExitsReach(visited: seq<Entry<ProcessData>>, name: CString)
      requires Valid()
      requires visited == Concat(ptable.hashTable.chains[..|ptable.hashTable.chains| - 1])
      ensures multiset(Exits(visited))[Frame(Instr(name, processName, Reciever.EXIT, []))] ==
              if name in ptable.hashTable.model && ptable.hashTable.model[name].relation == Child
                 && ptable.hashTable.Bucket(name) != ptable.hashTable.size - 1 then 1 else 0
    {
      ptable.hashTable.IterationMissesLastBucket(name);
      ExitsOnce(visited, name);
      hide Frame, Concat;
      if HasKey(visited, name) {
        var k :| 0 <= k < |visited| && visited[k].key == name;
        assert visited[k].value == ptable.hashTable.model[name];
        assert IsChild(visited[k], name) <==> ptable.hashTable.model[name].relation == Child;
        assert forall j :: 0 <= j < |visited| && IsChild(visited[j], name) ==> j == k;
      }
    }
  }

  /** A child in the last bucket, which of a table with one bucket is any, is not told. */
  method ChildIsNotTold() returns (server: Server)
    ensures fresh(server) && server.Valid() && server.outgoingmsg.nodes == []
    ensures [99] in server.ptable.hashTable.model && server.ptable.hashTable.model[[99]].relation == Child
  {
    var socket := new Socket([]);
    var processes := new ProcessTable(1, _ => 0);
    var added := processes.Add([99], [], 0, Child, socket);
    server := new Server([112], processes);
    var visited := server.QueueExits();
    assert visited == [] && server.Exits(visited) == [];
  }
}
