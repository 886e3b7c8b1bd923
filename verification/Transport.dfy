/** What the reciever makes of a stream of bundled instructions and pings, however the
    stream is cut into packets. */
module Transport {
  import opened Bytes
  import opened WireFormat
  import opened Reciever

  /** What a sender puts on a connection in one go. */
  datatype Item = PingItem | FrameItem(instr: Instr)

  function Wire(it: Item): bytes {
    match it
    case PingItem => Le32(PING)
    case FrameItem(i) => Frame(i)
  }

  function WireAll(items: seq<Item>): bytes {
    if items == [] then [] else Wire(items[0]) + WireAll(items[1..])
  }

  /** An instruction that the parser understands and whose size is not the ping constant. */
  predicate Sendable(it: Item) {
    it.FrameItem? ==> Parses(it.instr) && FrameSize(it.instr) != PING
  }

  predicate AllSendable(items: seq<Item>) {
    forall k :: 0 <= k < |items| ==> Sendable(items[k])
  }

  predicate IsExit(it: Item, me: CString) {
    it.FrameItem? && it.instr.name == EXIT && it.instr.dest == me
  }

  /** The instructions among the items, in order. */
  function Frames(items: seq<Item>): seq<bytes> {
    if items == [] then []
    else (if items[0].FrameItem? then [Frame(items[0].instr)] else []) + Frames(items[1..])
  }

  /** The position of the first exit sent to `me`, or the number of items. */
  function FirstExit(items: seq<Item>, me: CString): (n: nat)
    ensures n <= |items|
    ensures n < |items| ==> IsExit(items[n], me)
    ensures forall k :: 0 <= k < n ==> !IsExit(items[k], me)
  {
    if items == [] || IsExit(items[0], me) then 0 else 1 + FirstExit(items[1..], me)
  }

  lemma ExitForFrame(i: Instr, me: CString)
    requires Parses(i)
    ensures ExitFor(Frame(i), me) == Some(IsExit(FrameItem(i), me))
  {
    ParseInvertsBundle(i);
    MetaOfPointsAtFields(i);
    StrcmpDecides(Frame(i), NameOffset(i), EXIT);
    StrcmpDecides(Frame(i), DEST_OFFSET, me);
  }

  lemma HeaderOf(it: Item, more: bytes)
    requires Sendable(it)
    ensures |Wire(it)| >= 4
    ensures Int32((Wire(it) + more)[..4]) == if it.PingItem? then PING else FrameSize(it.instr)
  {
    Int32OfLe32(PING);
    assert (Wire(it) + more)[..4] == Wire(it)[..4];
    if it.FrameItem? {
      FrameLayout(it.instr);
      Int32OfLe32(FrameSize(it.instr));
    } else {
      assert Wire(it)[..4] == Wire(it);
    }
  }

  /** The instruction behind a header, when all of it has arrived. */
  lemma BodyArrived(cur: bytes, packets: seq<bytes>, me: CString, i: Instr, more: bytes)
    requires Parses(i) && Unread(cur, packets) == Frame(i)[4..] + more
    requires Int32(Frame(i)[..4]) == FrameSize(i)
    ensures var r := DecodeBody(Frame(i)[..4], cur, packets, me);
            r.frames == [Frame(i)]
            && (if IsExit(FrameItem(i), me) then r.Stop? && r.outcome == Disconnected
                else r.Continue? && Unread(r.cur, r.packets) == more)
  {
    hide Parse, Int32, Unread, ExitFor;
    var f := Frame(i);
    var rest := f[4..] + more;
    assert rest[..|f| - 4] == f[4..];
    assert f[..4] + f[4..] == f;
    assert rest[|f| - 4..] == more;
    ExitForFrame(i, me);
  }

  /** One turn takes one item from the stream. */
  lemma ItemArrived(cur: bytes, packets: seq<bytes>, me: CString, it: Item, more: bytes)
    requires Sendable(it) && Unread(cur, packets) == Wire(it) + more
    ensures var r := DecodeOne(cur, packets, me);
            r.frames == Frames([it])
            && (if IsExit(it, me) then r.Stop? && r.outcome == Disconnected
                else r.Continue? && Unread(r.cur, r.packets) == more)
  {
    hide DecodeBody, Int32, Unread, Frame;
    HeaderOf(it, more);
    var all := Wire(it) + more;
    var (cur1, packets1) := Consume(cur, packets, 4);
    assert Unread(cur1, packets1) == all[4..];
    if it.PingItem? {
      assert all[4..] == more;
    } else {
      assert all[..4] == Frame(it.instr)[..4];
      assert all[4..] == Frame(it.instr)[4..] + more;
      BodyArrived(cur1, packets1, me, it.instr, more);
    }
    assert [it][1..] == [];
  }

  /** An item of which only a part has arrived leaves the reciever waiting. */
  lemma PartArrived(cur: bytes, packets: seq<bytes>, me: CString, next: Item, tail: bytes)
    requires Sendable(next) && tail < Wire(next) && Unread(cur, packets) == tail
    ensures DecodeOne(cur, packets, me) == Stop([], Blocked)
  {
    hide Int32, Unread, Frame;
    if |tail| >= 4 {
      HeaderOf(next, []);
      assert (Wire(next) + [])[..4] == tail[..4];
      var (cur1, packets1) := Consume(cur, packets, 4);
      assert Unread(cur1, packets1) == tail[4..];
    }
  }

  /** How many items are taken: the loop stops after an exit to this process or when the
      server is found inactive. */
  function Turns(items: seq<Item>, me: CString, checks: nat): nat {
    var stop := FirstExit(items, me);
    var n := if stop < |items| then stop + 1 else |items|;
    if checks < n then checks else n
  }

  /** One item more. */
  lemma TurnsStep(items: seq<Item>, me: CString, checks: nat)
    requires items != [] && checks > 0
    ensures var n, exit := Turns(items, me, checks), IsExit(items[0], me);
            && (exit ==> n == 1 && FirstExit(items, me) == 0)
            && (!exit ==> n == 1 + Turns(items[1..], me, checks - 1) && FirstExit(items, me) == 1 + FirstExit(items[1..], me))
  {
    hide Frame, IsExit;
  }

  lemma FramesStep(items: seq<Item>, n: nat)
    requires 0 < n <= |items|
    ensures Frames(items[..n]) == Frames([items[0]]) + Frames(items[1..][..n - 1])
  {
    hide Frame;
    assert items[..n][0] == items[0] && items[..n][1..] == items[1..][..n - 1];
    assert [items[0]][1..] == [];
  }

  /** For any packets that carry the items and a part of the next one: exactly the
      instructions are queued, in order, up to and including the first exit sent to this
      process, unless the server becomes inactive before. */
  lemma {:induction false} Reassembly(cur: bytes, packets: seq<bytes>, me: CString, items: seq<Item>,
                                      tail: bytes, next: Item, checks: nat)
    requires AllSendable(items) && Sendable(next) && tail < Wire(next)
    requires Unread(cur, packets) == WireAll(items) + tail
    ensures var r := Decode(cur, packets, me, checks);
            && r.0 == Frames(items[..Turns(items, me, checks)])
            && r.1 == (if FirstExit(items, me) < |items| && FirstExit(items, me) < checks then Disconnected
                       else if checks <= |items| then Inactive else Blocked)
    decreases checks
  {
    hide DecodeOne, Unread, Wire, IsExit, Frame;
    DecodeUnfolds(cur, packets, me, checks);
    if checks == 0 {
      assert items[..0] == [];
    } else if items == [] {
      assert [] + tail == tail;
      PartArrived(cur, packets, me, next, tail);
    } else {
      var rest := WireAll(items[1..]) + tail;
      assert WireAll(items) + tail == Wire(items[0]) + rest;
      ItemArrived(cur, packets, me, items[0], rest);
      TurnsStep(items, me, checks);
      FramesStep(items, Turns(items, me, checks));
      assert items[1..][..0] == [] && Frames([]) == [];
      hide *;
      var r := DecodeOne(cur, packets, me);
      if r.Continue? {
        Reassembly(r.cur, r.packets, me, items[1..], tail, next, checks - 1);
      } else {
        assert Frames([items[0]]) + [] == Frames([items[0]]);
      }
    }
  }
}
