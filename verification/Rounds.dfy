/** What a reciever makes of bytes that no sender of this library wrote. */
module Rounds {
  import opened Bytes
  import opened WireFormat
  import opened Reciever
  import opened WaitResponse

  lemma DestIsTerminated(b: bytes)
    requires Readable(b)
    ensures CStringAt(b, DEST_OFFSET).Some?
  {
    assert AfterNul(b, AfterNul(b, DEST_OFFSET + 1) + 1) < |b|;
    if b[DEST_OFFSET] != 0 {
      ScannedIsTerminated(b, DEST_OFFSET + 1);
    }
  }

  function DestOf(b: bytes): CString
    requires Readable(b)
  {
    DestIsTerminated(b);
    CStringAt(b, DEST_OFFSET).value
  }

  /** The name and the destination of a bundled instruction are read as they were given. */
  lemma NamesOfFrame(i: Instr)
    requires Parses(i)
    ensures Readable(Frame(i)) && NameOf(Frame(i)) == i.name && DestOf(Frame(i)) == i.dest
  {
    hide Parse, Frame, CStringAt;
    ParseInvertsBundle(i);
    MetaOfPointsAtFields(i);
  }

  lemma ExitOfReadable(b: bytes, me: CString)
    ensures ExitFor(b, me) == if Readable(b) then Some(NameOf(b) == EXIT && DestOf(b) == me) else None
  {
    if Readable(b) {
      NameIsTerminated(b);
      DestIsTerminated(b);
      StrcmpDecides(b, Parse(b).instr, EXIT);
      StrcmpDecides(b, DEST_OFFSET, me);
      assert Parse(b).dest == DEST_OFFSET;
      hide Parse, StrcmpEq, CStringAt;
    }
  }

  /** Any frame that states its own size: without readable fields it is the end of defined
      behaviour; otherwise it is queued as it is, and ends the reciever exactly when its name is
      "exit" and its destination this process. */
  lemma AnyFrame(cur: bytes, packets: seq<bytes>, me: CString, frame: bytes, more: bytes)
    requires |frame| >= 4 && Int32(frame[..4]) == |frame| && |frame| != PING
    requires Unread(cur, packets) == frame + more
    ensures var r := DecodeOne(cur, packets, me);
            && (!Readable(frame) ==> r == Stop([], Undefined))
            && (Readable(frame) ==> r.frames == [frame])
            && (Readable(frame) ==>
                  if NameOf(frame) == EXIT && DestOf(frame) == me then r.Stop? && r.outcome == Disconnected
                  else r.Continue? && Unread(r.cur, r.packets) == more)
  {
    hide Readable, NameOf, DestOf, Int32, Unread, ExitFor;
    ExitOfReadable(frame, me);
    var all := frame + more;
    assert all[..4] == frame[..4];
    var (cur1, packets1) := Consume(cur, packets, 4);
    assert Unread(cur1, packets1) == all[4..] == frame[4..] + more;
    var rest := frame[4..] + more;
    assert rest[..|frame| - 4] == frame[4..] && rest[|frame| - 4..] == more;
    assert frame[..4] + frame[4..] == frame;
  }

  /** A zero header drops what is left of the packet it ends in; reading goes on with the next. */
  lemma ZeroHeaderDrops(rest: bytes, packets: seq<bytes>, me: CString, checks: nat)
    ensures Decode([0, 0, 0, 0] + rest, packets, me, checks + 1) == Decode([], packets, me, checks)
  {
    var cur: bytes := [0, 0, 0, 0] + rest;
    var zeros: bytes := [0, 0, 0, 0];
    assert cur[..4] == zeros && Unread(cur, packets)[..4] == zeros;
    ZeroIsZero();
    assert DecodeOne(cur, packets, me) == Continue([], [], packets);
    DecodeUnfolds(cur, packets, me, checks + 1);
    var d := Decode([], packets, me, checks);
    assert [] + d.0 == d.0;
  }

  lemma ZeroIsZero()
    ensures Int32([0, 0, 0, 0]) == 0
  {
    assert Unsigned([0, 0, 0, 0]) == 0 by {
      var z: bytes := [0, 0, 0, 0];
      assert z[1..] == [0, 0, 0] && z[1..][1..] == [0, 0] && z[1..][1..][1..] == [0];
    }
  }

  /** A size too small for its own header is the end of defined behaviour. */
  lemma BadSizeIsUndefined(cur: bytes, packets: seq<bytes>, me: CString, checks: nat)
    requires checks > 0 && |Unread(cur, packets)| >= 4
    requires var n := Int32(Unread(cur, packets)[..4]); n < 4 && n != 0
    ensures Decode(cur, packets, me, checks) == ([], Undefined)
  {
    hide Int32;
    DecodeUnfolds(cur, packets, me, checks);
  }

  /** The name that ends a reciever and the header that is a ping, as characters. */
  lemma NamesAsCharacters()
    ensures EXIT == ['e' as int, 'x' as int, 'i' as int, 't' as int]
    ensures Le32(PING) == ['p' as int, 'i' as int, 'n' as int, 'g' as int]
  {
    assert LittleEndian(0x67, 1) == [0x67];
    assert LittleEndian(0x676e, 2) == [0x6e, 0x67];
    assert LittleEndian(0x676e69, 3) == [0x69, 0x6e, 0x67];
  }

  /** A small frame, byte by byte: its size, destination, source, name, argument size, argument. */
  lemma SmallFrame()
    ensures Frame(Instr(['a' as int], ['b' as int], ['c' as int], [7]))
         == [15, 0, 0, 0, 'a' as int, 0, 'b' as int, 0, 'c' as int, 0, 1, 0, 0, 0, 7]
  {
    assert Le32(15) == [15, 0, 0, 0] && Le32(1) == [1, 0, 0, 0] by {
      assert LittleEndian(0, 1) == [0];
      assert LittleEndian(0, 2) == [0, 0];
      assert LittleEndian(0, 3) == [0, 0, 0];
    }
  }
}
