/** The reciever: reassembles instructions from the packets of one connection and puts
    them on the incoming queue. */
module Reciever {
  import opened Bytes
  import opened WireFormat
  import opened InstrQueue

  const BUFFER_BYTES: nat := 512
  const PING: int := 0x676e6970
  /** "exit" */
  const EXIT: CString := [101, 120, 105, 116]

  /** How a run of the reciever ends: waiting for a packet that is not there, finding the
      server inactive at a loop head, after an exit sent to this process, or with a read
      or write outside a buffer. */
  datatype Outcome = Blocked | Inactive | Disconnected | Undefined

  datatype RecState = Idle | ReadingHeaders | ReadingData

  /** What has arrived and is not read yet: the rest of the current packet and the packets
      behind it. */
  function Unread(cur: bytes, packets: seq<bytes>): bytes { cur + Flatten(packets) }

  /** Reading k bytes takes the next packet only when a byte of it is needed. */
  function Consume(cur: bytes, packets: seq<bytes>, k: nat): (r: (bytes, seq<bytes>))
    requires k <= |Unread(cur, packets)|
    ensures Unread(r.0, r.1) == Unread(cur, packets)[k..]
    decreases |packets|
  {
    if k <= |cur| then
      assert Unread(cur, packets)[k..] == cur[k..] + Flatten(packets);
      (cur[k..], packets)
    else
      assert packets != [];
      assert Unread(cur, packets) == cur + Unread(packets[0], packets[1..]);
      Consume(packets[0], packets[1..], k - |cur|)
  }

  /** From here, with `left` unread, taking m more bytes leads to `target`. */
  ghost predicate Toward(now: bytes, packets: seq<bytes>, m: nat, left: bytes, target: (bytes, seq<bytes>)) {
    Unread(now, packets) == left && (m <= |left| ==> Consume(now, packets, m) == target)
  }

  /** Where taking m bytes leads, if they are there. */
  ghost function Target(cur: bytes, packets: seq<bytes>, m: nat): (bytes, seq<bytes>) {
    if m <= |Unread(cur, packets)| then Consume(cur, packets, m) else (cur, packets)
  }

  lemma TowardStart(cur: bytes, packets: seq<bytes>, m: nat)
    ensures var all := Unread(cur, packets); Toward(cur, packets, m, all, Target(cur, packets, m))
  {
  }

  /** Copying j bytes of the current packet. */
  lemma TowardCopy(now: bytes, packets: seq<bytes>, m: nat, left: bytes, target: (bytes, seq<bytes>), j: nat)
    requires Toward(now, packets, m, left, target) && j <= m && j <= |now|
    ensures j <= |left| && left[..j] == now[..j] && (j > 0 ==> left[0] == now[0])
    ensures Toward(now[j..], packets, m - j, left[j..], target)
  {
    assert left[..j] == now[..j];
    assert Unread(now[j..], packets) == left[j..];
    if m <= |now| {
      assert now[j..][m - j..] == now[m..];
    }
  }

  /** Going to the next packet when the current one is used up. */
  lemma TowardNext(packets: seq<bytes>, m: nat, left: bytes, target: (bytes, seq<bytes>))
    requires Toward([], packets, m, left, target) && packets != [] && m > 0
    ensures Toward(packets[0], packets[1..], m, left, target)
  {
    assert Unread([], packets) == Unread(packets[0], packets[1..]);
  }

  /** `sofar` is the header followed by the first bytes of the stream `all`; the rest of the
      `size` bytes leads to `target`. */
  ghost predicate Filled(sofar: bytes, now: bytes, packets: seq<bytes>, size: nat,
                         head: bytes, all: bytes, target: (bytes, seq<bytes>))
  {
    && |head| == 4 && 4 <= |sofar| <= size && |sofar| - 4 <= |all|
    && sofar == head + all[..|sofar| - 4]
    && Toward(now, packets, size - |sofar|, all[|sofar| - 4..], target)
  }

  lemma FilledGrows(sofar: bytes, now: bytes, packets: seq<bytes>, size: nat,
                    head: bytes, all: bytes, target: (bytes, seq<bytes>), j: nat)
    requires Filled(sofar, now, packets, size, head, all, target)
    requires j <= |now| && |sofar| + j <= size
    ensures Filled(sofar + now[..j], now[j..], packets, size, head, all, target)
  {
    var left := all[|sofar| - 4..];
    TowardCopy(now, packets, size - |sofar|, left, target, j);
    PrefixGrows(all, |sofar| - 4, j);
    assert head + all[..|sofar| - 4] + left[..j] == head + (all[..|sofar| - 4] + left[..j]);
  }

  lemma PrefixGrows(all: bytes, k: nat, j: nat)
    requires k + j <= |all|
    ensures all[..k] + all[k..][..j] == all[..k + j]
    ensures all[k..][j..] == all[k + j..]
  {
  }

  lemma TowardDone(now: bytes, packets: seq<bytes>, left: bytes, target: (bytes, seq<bytes>))
    requires Toward(now, packets, 0, left, target)
    ensures (now, packets) == target
  {
    assert now[0..] == now;
  }

  /** Is this frame an exit for the process `me`? None when a comparison leaves the frame. */
  function ExitFor(frame: bytes, me: CString): Option<bool> {
    var m := Parse(frame);
    if !m.Meta? then None
    else
      match StrcmpEq(frame, m.instr, EXIT)
      case None => None
      case Some(false) => Some(false)
      case Some(true) => StrcmpEq(frame, m.dest, me)
  }

  /** One round of the loop: what it puts on the queue, and either how the run ends or where
      reading goes on. */
  datatype Round =
    | Stop(frames: seq<bytes>, outcome: Outcome)
    | Continue(frames: seq<bytes>, cur: bytes, packets: seq<bytes>)

  /** With the header read: the rest of an instruction of the size it states. */
  function DecodeBody(head: bytes, cur: bytes, packets: seq<bytes>, me: CString): (r: Round)
    requires |head| == 4 && Int32(head) >= 4
    ensures |r.frames| <= 1
  {
    var size := Int32(head) - 4;
    if |Unread(cur, packets)| < size then Stop([], Blocked)
    else
      var frame := head + Unread(cur, packets)[..size];
      var (cur', packets') := Consume(cur, packets, size);
      match ExitFor(frame, me)
      case None => Stop([], Undefined)
      case Some(true) => Stop([frame], Disconnected)
      case Some(false) => Continue([frame], cur', packets')
  }

  /** A zero header drops the rest of the packet, a ping is skipped, anything else is the size
      of an instruction. */
  function DecodeOne(cur: bytes, packets: seq<bytes>, me: CString): (r: Round)
    ensures |r.frames| <= 1
  {
    var all := Unread(cur, packets);
    if |all| < 4 then Stop([], Blocked)
    else
      var header := Int32(all[..4]);
      var (cur1, packets1) := Consume(cur, packets, 4);
      if header == 0 then Continue([], [], packets1)
      else if header == PING then Continue([], cur1, packets1)
      else if header < 4 then Stop([], Undefined)
      else DecodeBody(all[..4], cur1, packets1, me)
  }

  /** What is put on the queue for arbitrary packets, and how the run ends. `checks` is the
      number of loop heads at which the server is found active. */
  function Decode(cur: bytes, packets: seq<bytes>, me: CString, checks: nat): (r: (seq<bytes>, Outcome))
    decreases checks
  {
    if checks == 0 then ([], Inactive)
    else
      match DecodeOne(cur, packets, me)
      case Stop(frames, outcome) => (frames, outcome)
      case Continue(frames, cur', packets') =>
        var (rest, outcome) := Decode(cur', packets', me, checks - 1);
        (frames + rest, outcome)
  }

  lemma NothingToRead(me: CString)
    ensures DecodeOne([], [], me) == Stop([], Blocked)
  {
  }

  lemma DecodeUnfolds(cur: bytes, packets: seq<bytes>, me: CString, checks: nat)
    ensures checks == 0 ==> Decode(cur, packets, me, checks) == ([], Inactive)
    ensures var r := DecodeOne(cur, packets, me);
            && (checks > 0 && r.Stop? ==> Decode(cur, packets, me, checks) == (r.frames, r.outcome))
            && (checks > 0 && r.Continue? ==>
                  var rest := Decode(r.cur, r.packets, me, checks - 1);
                  Decode(cur, packets, me, checks) == (r.frames + rest.0, rest.1))
  {
    hide DecodeOne;
  }

  /** An idle reciever that takes the next packet reads the same. */
  lemma DecodeOneIdle(packets: seq<bytes>, me: CString)
    requires packets != []
    ensures DecodeOne([], packets, me) == DecodeOne(packets[0], packets[1..], me)
  {
    assert Unread([], packets) == Unread(packets[0], packets[1..]);
  }

  class Connection {
    const processName: CString
    const incomingQueue: Queue
    const recbuffer: array<byte>
    /** The packets the socket is still going to deliver. */
    var packets: seq<bytes>
    var incomingSize: nat
    var recOffset: nat
    var state: RecState
    var instruction: array?<byte>
    var bytesRead: nat

    ghost predicate Valid()
      reads this
    {
      && recbuffer.Length == BUFFER_BYTES
      && recOffset <= incomingSize <= BUFFER_BYTES
      && (forall p :: p in packets ==> 0 < |p| <= BUFFER_BYTES)
    }

    /** The unread rest of the current packet. */
    ghost function Current(): bytes
      requires Valid()
      reads this, recbuffer
    {
      recbuffer[recOffset..incomingSize]
    }

    constructor (processName: CString, incomingQueue: Queue, packets: seq<bytes>)
      requires forall p :: p in packets ==> 0 < |p| <= BUFFER_BYTES
      ensures Valid() && fresh(recbuffer) && Current() == [] && this.packets == packets
      ensures this.processName == processName && this.incomingQueue == incomingQueue
      ensures state == Idle && instruction == null
    {
      this.processName, this.incomingQueue, this.packets := processName, incomingQueue, packets;
      recbuffer := new byte[BUFFER_BYTES](_ => 0);
      incomingSize, recOffset, state, instruction, bytesRead := 0, 0, Idle, null, 0;
    }

    method NextPacket() returns (blocked: bool)
      requires Valid()
      modifies this`packets, this`incomingSize, this`recOffset, recbuffer
      ensures Valid()
      ensures blocked <==> old(packets) == []
      ensures blocked ==> packets == [] && Current() == []
      ensures !blocked ==> packets == old(packets)[1..] && Current() == old(packets)[0]
    {
      forall k | 0 <= k < BUFFER_BYTES {
        recbuffer[k] := 0;
      }
      if packets == [] {
        incomingSize, recOffset := 0, 0;
        return true;
      }
      var packet := packets[0];
      assert packet in packets;
      forall k | 0 <= k < |packet| {
        recbuffer[k] := packet[k];
      }
      incomingSize := |packet|;
      recOffset := 0;
      packets := packets[1..];
      assert recbuffer[0..incomingSize] == packet;
      return false;
    }

    /** Reads the four header bytes, taking packets as needed. */
    method ReadHeader() returns (headerBytes: bytes, blocked: bool)
      requires Valid()
      modifies this`packets, this`incomingSize, this`recOffset, recbuffer
      ensures Valid()
      ensures blocked <==> |old(Unread(Current(), packets))| < 4
      ensures !blocked ==> |headerBytes| == 4 && headerBytes == old(Unread(Current(), packets))[..4]
      ensures !blocked ==> (Current(), packets) == Consume(old(Current()), old(packets), 4)
    {
      hide Toward, Consume, Unread;
      headerBytes, blocked := [], false;
      ghost var all := Unread(Current(), packets);
      ghost var target := Target(Current(), packets, 4);
      TowardStart(Current(), packets, 4);
      assert all[0..] == all;
      for h := 0 to 4
        invariant Valid()
        invariant h <= |all| && headerBytes == all[..h]
        invariant Toward(Current(), packets, 4 - h, all[h..], target)
      {
        var b;
        b, blocked := ReadByte(4 - h, all[h..], target);
        if blocked { return; }
        assert all[..h + 1] == all[..h] + [all[h..][0]];
        assert all[h..][1..] == all[h + 1..];
        headerBytes := headerBytes + [b];
      }
      TowardDone(Current(), packets, all[4..], target);
    }

    /** The next byte of the stream, with a new packet if the current one is used up. */
    method ReadByte(ghost m: nat, ghost left: bytes, ghost target: (bytes, seq<bytes>))
      returns (b: byte, blocked: bool)
      requires Valid() && m > 0 && Toward(Current(), packets, m, left, target)
      modifies this`packets, this`incomingSize, this`recOffset, recbuffer
      ensures Valid()
      ensures blocked <==> left == []
      ensures !blocked ==> b == left[0] && Toward(Current(), packets, m - 1, left[1..], target)
    {
      assert Current() == [] && packets == [] ==> left == [];
      assert left == [] ==> Current() == [] && Flatten(packets) == [];
      hide Toward, Consume, Unread;
      b, blocked := 0, false;
      if recOffset >= incomingSize {
        assert Current() == [];
        ghost var rest := packets;
        blocked := NextPacket();
        if blocked { return; }
        TowardNext(rest, m, left, target);
      }
      ghost var now := Current();
      TowardCopy(now, packets, m, left, target, 1);
      b := recbuffer[recOffset];
      assert b == now[0];
      recOffset := recOffset + 1;
      assert Current() == now[1..];
    }

    /** The instruction so far is the header and the first bytes of the stream. */
    ghost predicate Filling(frame: array<byte>, head: bytes, all: bytes, target: (bytes, seq<bytes>))
      reads this, recbuffer, frame
    {
      && Valid() && frame != recbuffer && bytesRead <= frame.Length
      && Filled(frame[..bytesRead], Current(), packets, frame.Length, head, all, target)
    }

    /** Fills the instruction, taking packets as needed. */
    method ReadData(frame: array<byte>) returns (blocked: bool)
      requires Valid() && frame != recbuffer && bytesRead == 4 <= frame.Length
      modifies this`packets, this`incomingSize, this`recOffset, this`bytesRead, recbuffer, frame
      ensures Valid()
      ensures blocked <==> |old(Unread(Current(), packets))| < frame.Length - 4
      ensures !blocked ==> frame[..] == old(frame[..4]) + old(Unread(Current(), packets))[..frame.Length - 4]
      ensures !blocked ==> (Current(), packets) == Consume(old(Current()), old(packets), frame.Length - 4)
      ensures !blocked ==> bytesRead == frame.Length
    {
      ghost var all, size := Unread(Current(), packets), frame.Length - 4;
      ghost var head := frame[..4];
      ghost var target := Target(Current(), packets, size);
      blocked := false;
      assert all[..0] == [] && all[0..] == all;
      while bytesRead != frame.Length
        invariant !blocked && Filling(frame, head, all, target)
        decreases |packets|, frame.Length - bytesRead
      {
        blocked := ReadPacket(frame, head, all, target);
        if blocked { return; }
      }
      TowardDone(Current(), packets, all[size..], target);
      assert frame[..] == frame[..bytesRead];
    }

    /** One round: copy up to the end of the received data, then take the next packet if the
        instruction is not complete. */
    method ReadPacket(frame: array<byte>, ghost head: bytes, ghost all: bytes, ghost target: (bytes, seq<bytes>))
      returns (blocked: bool)
      requires Filling(frame, head, all, target) && bytesRead != frame.Length
      modifies this`packets, this`incomingSize, this`recOffset, this`bytesRead, recbuffer, frame
      ensures Valid()
      ensures !blocked ==> Filling(frame, head, all, target)
      ensures !blocked ==> if bytesRead != frame.Length then |packets| < |old(packets)|
                           else |packets| == |old(packets)| && old(bytesRead) < bytesRead
      ensures blocked ==> |all| < frame.Length - 4
    {
      var toCopy := frame.Length - bytesRead;
      if recOffset + toCopy > incomingSize {
        toCopy := incomingSize - recOffset;
      }
      CopySome(frame, toCopy, head, all, target);
      blocked := false;
      if bytesRead != frame.Length {
        blocked := LoadNext(frame, head, all, target);
      }
    }

    /** Takes the next packet while an instruction is incomplete. */
    method LoadNext(frame: array<byte>, ghost head: bytes, ghost all: bytes, ghost target: (bytes, seq<bytes>))
      returns (blocked: bool)
      requires Filling(frame, head, all, target) && bytesRead != frame.Length && Current() == []
      modifies this`packets, this`incomingSize, this`recOffset, recbuffer
      ensures Valid()
      ensures !blocked ==> Filling(frame, head, all, target) && |packets| < |old(packets)|
      ensures blocked ==> |all| < frame.Length - 4
    {
      ghost var rest := packets;
      blocked := NextPacket();
      if !blocked {
        TowardNext(rest, frame.Length - bytesRead, all[bytesRead - 4..], target);
      }
    }

    /** Copies part of the current packet into the instruction. */
    method CopySome(frame: array<byte>, toCopy: nat, ghost head: bytes, ghost all: bytes,
                    ghost target: (bytes, seq<bytes>))
      requires Filling(frame, head, all, target)
      requires bytesRead + toCopy <= frame.Length && recOffset + toCopy <= incomingSize
      modifies this`recOffset, this`bytesRead, frame
      ensures Filling(frame, head, all, target)
      ensures recOffset == old(recOffset) + toCopy && bytesRead == old(bytesRead) + toCopy
    {
      hide Filled, Toward, Consume, Unread, Overwrite;
      ghost var now, sofar := Current(), frame[..bytesRead];
      FilledGrows(sofar, now, packets, frame.Length, head, all, target, toCopy);
      var src := recbuffer[recOffset..recOffset + toCopy];
      assert src == now[..toCopy];
      bytesRead := CopyInto(frame, bytesRead, src);
      recOffset := recOffset + toCopy;
      assert Current() == now[toCopy..];
    }

    /** Reading the header and, unless it is zero or a ping, the instruction behind it. */
    method ReadInstruction() returns (round: Round)
      requires Valid() && instruction == null
      modifies this`packets, this`incomingSize, this`recOffset, this`bytesRead, this`instruction, this`state, recbuffer
      ensures Valid()
      ensures round == DecodeOne(old(Current()), old(packets), processName)
      ensures round.Continue? ==> packets == round.packets && instruction == null
      ensures round.Continue? ==> state != ReadingData && (state == Idle ==> round.cur == [])
      ensures round.Continue? && state == ReadingHeaders ==> Current() == round.cur
    {
      hide DecodeBody, Toward;
      state := ReadingHeaders;
      var headerBytes, blocked := ReadHeader();
      if blocked { return Stop([], Blocked); }
      var header := Int32(headerBytes);
      if header == 0 {
        state := Idle;
        return Continue([], [], packets);
      } else if header == PING {
        return Continue([], recbuffer[recOffset..incomingSize], packets);
      } else if header < 4 {
        return Stop([], Undefined);
      }
      round := ReadBody(header, headerBytes);
    }

    /** Allocates the instruction, reads it and looks for an exit sent to this process. */
    method ReadBody(header: int, headerBytes: bytes) returns (round: Round)
      requires Valid() && instruction == null && state == ReadingHeaders
      requires |headerBytes| == 4 && Int32(headerBytes) == header >= 4
      modifies this`packets, this`incomingSize, this`recOffset, this`bytesRead, this`instruction, this`state, recbuffer
      ensures Valid()
      ensures round == DecodeBody(headerBytes, old(Current()), old(packets), processName)
      ensures round.Continue? ==> AtLoopHead() && state == ReadingHeaders
      ensures round.Continue? ==> Current() == round.cur && packets == round.packets
    {
      hide Toward, ExitFor, Int32;
      var frame := new byte[header](_ => 0);
      instruction := frame;
      state := ReadingData;
      bytesRead := CopyInto(frame, 0, headerBytes);
      assert frame[..4] == headerBytes;
      var blocked := ReadData(frame);
      if blocked { return Stop([], Blocked); }
      var exit := CheckExit(frame);
      if exit == None { return Stop([], Undefined); }
      instruction := null;
      bytesRead := 0;
      state := ReadingHeaders;
      if exit.value {
        return Stop([frame[..]], Disconnected);
      }
      return Continue([frame[..]], recbuffer[recOffset..incomingSize], packets);
    }

    method CheckExit(frame: array<byte>) returns (exit: Option<bool>)
      ensures exit == ExitFor(frame[..], processName)
    {
      var meta := GetFromBuffer(frame);
      if !meta.Meta? { return None; }
      exit := StrcmpEq(frame[..], meta.instr, EXIT);
      if exit == Some(true) {
        exit := StrcmpEq(frame[..], meta.dest, processName);
      }
    }

    /** wimp_reciever_recieve: runs until the outcome, with `activeChecks` loop heads that find
        the server active. At every loop head no instruction is half built. */
    method Recieve(activeChecks: nat) returns (outcome: Outcome)
      requires Valid() && incomingQueue.Valid()
      requires state == Idle && Current() == [] && instruction == null
      modifies this`packets, this`incomingSize, this`recOffset, this`bytesRead, this`instruction, this`state, recbuffer
      modifies incomingQueue, incomingQueue.nodes
      ensures Valid() && incomingQueue.Valid()
      ensures outcome == Decode([], old(packets), processName, activeChecks).1
      ensures Instrs(incomingQueue.nodes)
           == old(Instrs(incomingQueue.nodes)) + Decode([], old(packets), processName, activeChecks).0
    {
      ghost var was := incomingQueue.nodes;
      ghost var todo := Decode([], packets, processName, activeChecks);
      ghost var final, result := Instrs(incomingQueue.nodes) + todo.0, todo.1;
      var checks := activeChecks;
      var end := None;
      while end == None
        invariant Valid() && incomingQueue.Valid()
        invariant was <= incomingQueue.nodes
        invariant forall i :: |was| <= i < |incomingQueue.nodes| ==> fresh(incomingQueue.nodes[i])
        invariant final == Instrs(incomingQueue.nodes) + todo.0 && result == todo.1
        invariant end == None ==> AtLoopHead() && todo == Decode(Pending(), packets, processName, checks)
        invariant end != None ==> todo == ([], end.value)
        decreases checks, end == None
      {
        hide *;
        end, todo := Turn(checks);
        checks := if checks > 0 then checks - 1 else 0;
      }
      return end.value;
    }

    /** No instruction is half built at a loop head. */
    ghost predicate AtLoopHead()
      reads this
    {
      Valid() && instruction == null && state != ReadingData
    }

    /** The bytes of the current packet that are still going to be read. */
    ghost function Pending(): bytes
      requires Valid()
      reads this, recbuffer
    {
      if state == Idle then [] else Current()
    }

    /** One turn of the loop. `rest` is what later turns add and how the run ends. */
    method Turn(checks: nat) returns (end: Option<Outcome>, ghost rest: (seq<bytes>, Outcome))
      requires AtLoopHead() && incomingQueue.Valid()
      modifies this`packets, this`incomingSize, this`recOffset, this`bytesRead, this`instruction, this`state, recbuffer
      modifies incomingQueue, incomingQueue.nodes
      ensures Valid() && incomingQueue.Valid()
      ensures old(incomingQueue.nodes) <= incomingQueue.nodes
      ensures forall i :: |old(incomingQueue.nodes)| <= i < |incomingQueue.nodes| ==> fresh(incomingQueue.nodes[i])
      ensures var todo := Decode(old(Pending()), old(packets), processName, checks);
              old(Instrs(incomingQueue.nodes)) + todo.0 == Instrs(incomingQueue.nodes) + rest.0 && todo.1 == rest.1
      ensures end != None ==> rest == ([], end.value)
      ensures end == None ==> checks > 0 && AtLoopHead() && rest == Decode(Pending(), packets, processName, checks - 1)
    {
      assert Valid();
      hide *;
      ghost var cur, was := Pending(), packets;
      DecodeUnfolds(cur, was, processName, checks);
      if checks == 0 {
        return Some(Inactive), ([], Inactive);
      }
      ghost var before := Instrs(incomingQueue.nodes);
      var round := NextInstruction();
      Enqueue(round.frames);
      assert Instrs(incomingQueue.nodes) + [] == Instrs(incomingQueue.nodes);
      if round.Stop? {
        return Some(round.outcome), ([], round.outcome);
      }
      rest := Decode(round.cur, round.packets, processName, checks - 1);
      ConcatAssoc(before, round.frames, rest.0);
      end := None;
    }

    method Enqueue(frames: seq<bytes>)
      requires incomingQueue.Valid() && |frames| <= 1
      modifies incomingQueue, incomingQueue.nodes
      ensures incomingQueue.Valid() && Instrs(incomingQueue.nodes) == old(Instrs(incomingQueue.nodes)) + frames
      ensures old(incomingQueue.nodes) <= incomingQueue.nodes
      ensures forall i :: |old(incomingQueue.nodes)| <= i < |incomingQueue.nodes| ==> fresh(incomingQueue.nodes[i])
    {
      if |frames| == 1 {
        incomingQueue.Add(frames[0]);
        assert frames == [frames[0]];
      }
    }

    /** An idle reciever takes a packet first. */
    method NextInstruction() returns (round: Round)
      requires AtLoopHead()
      modifies this`packets, this`incomingSize, this`recOffset, this`bytesRead, this`instruction, this`state, recbuffer
      ensures Valid() && |round.frames| <= 1
      ensures round == DecodeOne(old(Pending()), old(packets), processName)
      ensures round.Continue? ==> AtLoopHead() && Pending() == round.cur && packets == round.packets
    {
      hide DecodeOne, Toward;
      if state == Idle {
        ghost var later := packets;
        var blocked := NextPacket();
        NothingToRead(processName);
        if blocked {
          return Stop([], Blocked);
        }
        DecodeOneIdle(later, processName);
        state := ReadingHeaders;
      }
      round := ReadInstruction();
    }
  }
}
