/** One connection from end to end: what the sending loop puts on the stream is what the
    reciever at the other side puts on its queue. */
module EndToEnd {
  import opened Bytes
  import opened WireFormat
  import opened Transport
  import R = Reciever
  import S = Server

  /** The instructions at these positions, as items on a stream. */
  ghost function ItemsAt(instrs: seq<Instr>, ks: seq<nat>): (items: seq<Item>)
    requires S.Positions(ks, |instrs|)
    ensures |items| == |ks|
  {
    seq(|ks|, j requires 0 <= j < |ks| => FrameItem(instrs[ks[j]]))
  }

  lemma {:induction false} ItemsAreFrames(instrs: seq<Instr>, ks: seq<nat>)
    requires S.Positions(ks, |instrs|)
    ensures Frames(ItemsAt(instrs, ks)) == S.FramesAt(instrs, ks)
    ensures WireAll(ItemsAt(instrs, ks)) == Flatten(S.FramesAt(instrs, ks))
    decreases |ks|
  {
    hide Frame;
    if ks != [] {
      var items, frames := ItemsAt(instrs, ks), S.FramesAt(instrs, ks);
      assert items[1..] == ItemsAt(instrs, ks[1..]);
      assert frames[1..] == S.FramesAt(instrs, ks[1..]);
      assert frames == [Frame(instrs[ks[0]])] + frames[1..];
      ItemsAreFrames(instrs, ks[1..]);
    }
  }

  /** However the stream of a connection is cut into packets, the reciever queues exactly the
      frames that were sent over it, in order, up to the first exit addressed to it. */
  lemma SentIsRecieved(instrs: seq<Instr>, ks: seq<nat>, packets: seq<bytes>, me: CString, checks: nat)
    requires S.Positions(ks, |instrs|)
    requires forall j :: 0 <= j < |ks| ==> Parses(instrs[ks[j]]) && FrameSize(instrs[ks[j]]) != R.PING
    requires Flatten(packets) == Flatten(S.FramesAt(instrs, ks)) && checks > |ks|
    ensures var sent, exit := S.FramesAt(instrs, ks), FirstExit(ItemsAt(instrs, ks), me);
            R.Decode([], packets, me, checks)
            == if exit < |ks| then (sent[..exit + 1], R.Disconnected) else (sent, R.Blocked)
    ensures var exit := FirstExit(ItemsAt(instrs, ks), me);
            && (forall j :: 0 <= j < exit ==> !(instrs[ks[j]].name == R.EXIT && instrs[ks[j]].dest == me))
            && (exit < |ks| ==> instrs[ks[exit]].name == R.EXIT && instrs[ks[exit]].dest == me)
  {
    hide Frame, R.Decode;
    var items := ItemsAt(instrs, ks);
    ItemsAreFrames(instrs, ks);
    assert R.Unread([], packets) == WireAll(items) + [];
    Reassembly([], packets, me, items, [], PingItem, checks);
    FramesPrefix(items, Turns(items, me, checks));
    assert Frames(items)[..|items|] == Frames(items);
    forall j | 0 <= j < FirstExit(items, me) ensures !(instrs[ks[j]].name == R.EXIT && instrs[ks[j]].dest == me) {
      assert !IsExit(items[j], me);
    }
  }

  lemma {:induction false} FramesPrefix(items: seq<Item>, n: nat)
    requires n <= |items| && forall k :: 0 <= k < |items| ==> items[k].FrameItem?
    ensures |Frames(items)| == |items| && Frames(items[..n]) == Frames(items)[..n]
    decreases |items|
  {
    hide Frame;
    if items != [] {
      FramesPrefix(items[1..], if n > 0 then n - 1 else 0);
      if n > 0 {
        assert items[..n][1..] == items[1..][..n - 1];
      }
    }
  }
}
