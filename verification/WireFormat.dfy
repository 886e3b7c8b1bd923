/** The byte layout of an instruction: the bundler that writes it, the parser that finds
    the fields again, and exactly when the two agree. */
module WireFormat {
  import opened Bytes

  const DEST_OFFSET: nat := 4

  /** An instruction as its sender states it. */
  datatype Instr = Instr(dest: CString, source: CString, name: CString, args: bytes)

  /** What the parser reports. Pointers are offsets into the buffer. `Ping` is the answer
      with every pointer NULL; `Overrun` stands for a read outside the buffer. */
  datatype Meta =
    | Ping
    | Overrun
    | Meta(dest: nat, source: nat, instr: nat, args: Option<nat>,
           totalBytes: int, argBytes: int, instrBytes: int)

  function SourceOffset(i: Instr): nat { DEST_OFFSET + |i.dest| + 1 }
  function NameOffset(i: Instr): nat { SourceOffset(i) + |i.source| + 1 }
  function ArgLenOffset(i: Instr): nat { NameOffset(i) + |i.name| + 1 }
  function ArgsOffset(i: Instr): nat { ArgLenOffset(i) + 4 }
  function FrameSize(i: Instr): nat { ArgsOffset(i) + |i.args| }

  function Terminated(s: CString, rest: bytes): bytes { s + [0] + rest }

  /** TOTAL_BYTES DEST\0 SOURCE\0 INSTRUCTION\0 ARG_BYTES ARGS */
  function Frame(i: Instr): (f: bytes)
    ensures |f| == FrameSize(i)
  {
    Le32(FrameSize(i)) + Terminated(i.dest, Terminated(i.source, Terminated(i.name, Le32(|i.args|) + i.args)))
  }

  /** f holds the C string s, terminated, at offset `off`. */
  predicate Holds(f: bytes, off: nat, s: CString) {
    off + |s| < |f| && f[off..off + |s|] == s && f[off + |s|] == 0
  }

  /** Where each field of a frame lies. */
  predicate LaidOut(f: bytes, i: Instr) {
    && |f| == FrameSize(i)
    && f[..4] == Le32(FrameSize(i))
    && Holds(f, DEST_OFFSET, i.dest)
    && Holds(f, SourceOffset(i), i.source)
    && Holds(f, NameOffset(i), i.name)
    && f[ArgLenOffset(i)..ArgsOffset(i)] == Le32(|i.args|)
    && f[ArgsOffset(i)..] == i.args
  }

  lemma PeelField(f: bytes, off: nat, s: CString, rest: bytes)
    requires off <= |f| && f[off..] == Terminated(s, rest)
    ensures Holds(f, off, s)
    ensures f[off + |s| + 1..] == rest
  {
    var t := f[off..];
    assert t[..|s|] == s && t[|s|] == 0 && t[|s| + 1..] == rest;
    assert f[off + |s| + 1..] == t[|s| + 1..];
  }

  /** The three names, peeled off one by one from what follows the size. */
  lemma PeelNames(f: bytes, i: Instr, t3: bytes, t4: bytes, t5: bytes)
    requires |f| >= 4 && f[4..] == Terminated(i.dest, t3)
    requires t3 == Terminated(i.source, t4) && t4 == Terminated(i.name, t5)
    ensures Holds(f, DEST_OFFSET, i.dest)
    ensures Holds(f, SourceOffset(i), i.source)
    ensures Holds(f, NameOffset(i), i.name)
    ensures f[ArgLenOffset(i)..] == t5
  {
    PeelField(f, DEST_OFFSET, i.dest, t3);
    PeelField(f, SourceOffset(i), i.source, t4);
    PeelField(f, NameOffset(i), i.name, t5);
  }

  lemma PeelArgs(f: bytes, off: nat, len: bytes, args: bytes)
    requires off <= |f| && f[off..] == len + args
    ensures off + |len| <= |f|
    ensures f[off..off + |len|] == len && f[off + |len|..] == args
  {
    var t := f[off..];
    assert t[..|len|] == len && t[|len|..] == args;
  }

  lemma FrameLayout(i: Instr)
    ensures LaidOut(Frame(i), i)
  {
    var t5 := Le32(|i.args|) + i.args;
    var t4 := Terminated(i.name, t5);
    var t3 := Terminated(i.source, t4);
    assert Frame(i)[..4] == Le32(FrameSize(i)) && Frame(i)[4..] == Terminated(i.dest, t3);
    hide Frame, Terminated, LittleEndian, Le32;
    PeelNames(Frame(i), i, t3, t4, t5);
    PeelArgs(Frame(i), ArgLenOffset(i), Le32(|i.args|), i.args);
  }

  /** The offset just behind the first NUL at or after `off`, or where the scan gives up. */
  function AfterNul(buf: bytes, off: nat): (r: nat)
    ensures off < |buf| ==> off < r <= |buf|
    ensures off >= |buf| ==> r == off
    decreases |buf| - off
  {
    if off >= |buf| then off
    else if buf[off] == 0 then off + 1
    else AfterNul(buf, off + 1)
  }

  /** A scan that starts inside a terminated string, or on its terminator, stops behind it. */
  lemma {:induction false} AfterNulSkips(buf: bytes, off: nat, end: nat)
    requires off <= end < |buf| && buf[end] == 0
    requires 0 !in buf[off..end]
    ensures AfterNul(buf, off) == end + 1
    decreases end - off
  {
    if off < end {
      assert buf[off] == buf[off..end][0];
      assert buf[off + 1..end] == buf[off..end][1..];
      AfterNulSkips(buf, off + 1, end);
    }
  }

  /** The field pointers the parser computes for the bytes of one buffer. */
  function Parse(buf: bytes): Meta {
    if buf == [] then Overrun
    else if buf[0] == 0 then Ping
    else
      var source := AfterNul(buf, DEST_OFFSET + 1);
      var instr := AfterNul(buf, source + 1);
      var after := AfterNul(buf, instr + 1);
      if after + 4 > |buf| then Overrun
      else
        var argBytes := Int32(buf[after..after + 4]);
        Meta(DEST_OFFSET, source, instr, if argBytes != 0 then Some(after + 4) else None,
             Int32ToSize(Int32(buf[..4])), argBytes, Int32(Le32(after - instr)))
  }

  method ScanPastNul(buffer: array<byte>, start: nat) returns (offset: nat)
    ensures offset == AfterNul(buffer[..], start)
  {
    offset := start;
    var currentIsNul := false;
    while !currentIsNul && offset < buffer.Length
      invariant start <= offset
      invariant if currentIsNul then offset == AfterNul(buffer[..], start)
                else AfterNul(buffer[..], offset) == AfterNul(buffer[..], start)
      decreases buffer.Length - offset
    {
      currentIsNul := buffer[offset] == 0;
      offset := offset + 1;
    }
  }

  method GetFromBuffer(buffer: array<byte>) returns (m: Meta)
    ensures m == Parse(buffer[..])
  {
    if buffer.Length == 0 { return Overrun; }
    if buffer[0] == 0 { return Ping; }
    var source := ScanPastNul(buffer, DEST_OFFSET + 1);
    var instr := ScanPastNul(buffer, source + 1);
    var offset := ScanPastNul(buffer, instr + 1);
    if offset + 4 > buffer.Length { return Overrun; }
    var argBytes := Int32(buffer[offset..offset + 4]);
    var args := None;
    if argBytes != 0 {
      args := Some(offset + 4);
    }
    assert buffer[..][offset..offset + 4] == buffer[offset..offset + 4];
    assert buffer[..][..4] == buffer[..4];
    m := Meta(DEST_OFFSET, source, instr, args, Int32ToSize(Int32(buffer[..4])), argBytes,
              Int32(Le32(offset - instr)));
  }

  /** The states of the buffer prefix while a frame is written add up to the frame. */
  lemma FrameWritten(i: Instr, s1: bytes, s2: bytes, s3: bytes, s4: bytes)
    requires s1 == Le32(FrameSize(i))
    requires s2 == s1 + (i.dest + [0])
    requires s3 == s2 + (i.source + [0])
    requires s4 == s3 + (i.name + [0])
    ensures s4 + Le32(|i.args|) + i.args == Frame(i)
  {
    var t5 := Le32(|i.args|) + i.args;
    var t4 := Terminated(i.name, t5);
    var t3 := Terminated(i.source, t4);
    assert s4 + Le32(|i.args|) + i.args == s4 + t5;
    assert s4 + t5 == s3 + t4;
    assert s3 + t4 == s2 + t3;
  }

  method Bundle(process: CString, dest: CString, instr: CString, args: bytes) returns (buf: array<byte>)
    ensures fresh(buf)
    ensures buf[..] == Frame(Instr(dest, process, instr, args))
  {
    hide Frame, Overwrite, LittleEndian;
    var total := 4 + (|process| + 1) + (|dest| + 1) + (|instr| + 1) + 4 + |args|;
    buf := new byte[total](_ => 0);
    var offset := CopyInto(buf, 0, Le32(total));
    ghost var s1 := buf[..offset];
    offset := CopyInto(buf, offset, dest + [0]);
    ghost var s2 := buf[..offset];
    offset := CopyInto(buf, offset, process + [0]);
    ghost var s3 := buf[..offset];
    offset := CopyInto(buf, offset, instr + [0]);
    ghost var s4 := buf[..offset];
    FrameWritten(Instr(dest, process, instr, args), s1, s2, s3, s4);
    offset := CopyInto(buf, offset, Le32(|args|));
    if |args| > 0 {
      offset := CopyInto(buf, offset, args);
    }
    assert buf[..] == buf[..offset];
  }

  /** The pointers a correct parser has to report. */
  function MetaOf(i: Instr): Meta {
    Meta(DEST_OFFSET, SourceOffset(i), NameOffset(i), if i.args != [] then Some(ArgsOffset(i)) else None,
         FrameSize(i), |i.args|, |i.name| + 1)
  }

  /** The frames the parser understands. */
  predicate Parses(i: Instr) {
    && i.dest != [] && i.source != [] && i.name != []
    && FrameSize(i) % 256 != 0
    && FrameSize(i) < TWO_31
  }

  /** The right pointers do point at the fields, and the argument region is the argument bytes. */
  lemma MetaOfPointsAtFields(i: Instr)
    ensures var f, m := Frame(i), MetaOf(i);
            && CStringAt(f, m.dest) == Some(i.dest)
            && CStringAt(f, m.source) == Some(i.source)
            && CStringAt(f, m.instr) == Some(i.name)
            && (m.args.Some? ==> f[m.args.value..m.args.value + m.argBytes] == i.args)
            && (m.args.None? ==> i.args == [])
            && m.totalBytes == |f| && m.argBytes == |i.args|
            && m.instrBytes == |i.name| + 1 && f[m.instr + m.instrBytes - 1] == 0
  {
    FrameLayout(i);
    hide Frame, CStringAt, LittleEndian;
    CStringIs(Frame(i), DEST_OFFSET, i.dest);
    CStringIs(Frame(i), SourceOffset(i), i.source);
    CStringIs(Frame(i), NameOffset(i), i.name);
  }

  /** The scan for the end of a nonempty field starts one byte in and stops behind it. */
  lemma ScanFindsEnd(f: bytes, off: nat, s: CString)
    requires Holds(f, off, s) && s != []
    ensures AfterNul(f, off + 1) == off + |s| + 1
  {
    assert f[off + 1..off + |s|] == s[1..];
    AfterNulSkips(f, off + 1, off + |s|);
  }

  lemma LaidOutNumbers(f: bytes, i: Instr)
    requires LaidOut(f, i)
    ensures f[0] == FrameSize(i) % 256
    ensures FrameSize(i) < TWO_31 ==> Int32(f[..4]) == FrameSize(i)
    ensures FrameSize(i) < TWO_31 ==> Int32(f[ArgLenOffset(i)..ArgsOffset(i)]) == |i.args|
    ensures FrameSize(i) < TWO_63 ==> (Int32ToSize(Int32(f[..4])) == FrameSize(i) <==> FrameSize(i) < TWO_31)
  {
    assert f[0] == f[..4][0];
    Int32OfLe32(FrameSize(i));
    Int32OfLe32(|i.args|);
  }

  lemma LaidOutScans(f: bytes, i: Instr)
    requires LaidOut(f, i) && Parses(i)
    ensures AfterNul(f, DEST_OFFSET + 1) == SourceOffset(i)
    ensures AfterNul(f, SourceOffset(i) + 1) == NameOffset(i)
    ensures AfterNul(f, NameOffset(i) + 1) == ArgLenOffset(i)
  {
    ScanFindsEnd(f, DEST_OFFSET, i.dest);
    ScanFindsEnd(f, SourceOffset(i), i.source);
    ScanFindsEnd(f, NameOffset(i), i.name);
  }

  lemma ParseAssembles(f: bytes, i: Instr)
    requires |f| == FrameSize(i) && f[0] != 0
    requires AfterNul(f, DEST_OFFSET + 1) == SourceOffset(i)
    requires AfterNul(f, SourceOffset(i) + 1) == NameOffset(i)
    requires AfterNul(f, NameOffset(i) + 1) == ArgLenOffset(i)
    requires Int32(f[..4]) == FrameSize(i)
    requires Int32(f[ArgLenOffset(i)..ArgsOffset(i)]) == |i.args|
    requires Int32(Le32(|i.name| + 1)) == |i.name| + 1
    ensures Parse(f) == MetaOf(i)
  {
    hide AfterNul, Int32, LittleEndian, Unsigned;
    assert ArgLenOffset(i) - NameOffset(i) == |i.name| + 1;
  }

  lemma LaidOutParses(f: bytes, i: Instr)
    requires LaidOut(f, i) && Parses(i)
    ensures Parse(f) == MetaOf(i)
  {
    LaidOutNumbers(f, i);
    LaidOutScans(f, i);
    Int32OfLe32(|i.name| + 1);
    ParseAssembles(f, i);
  }

  /** With an empty field some pointer lands too far right; with a size beyond int32_t the
      total is wrong; with a size that is a multiple of 256 the first byte is zero. */
  lemma LaidOutParsesOnlyIf(f: bytes, i: Instr)
    requires LaidOut(f, i) && FrameSize(i) < TWO_63
    requires Parse(f) == MetaOf(i)
    ensures Parses(i)
  {
    LaidOutNumbers(f, i);
    Int32OfLe32(AfterNul(f, NameOffset(i) + 1) - NameOffset(i));
  }

  /** Parsing a bundled instruction gives every field back exactly when the names are
      nonempty, the size is no multiple of 256 and it fits an int32_t. */
  lemma ParseInvertsBundle(i: Instr)
    requires FrameSize(i) < TWO_63
    ensures Parse(Frame(i)) == MetaOf(i) <==> Parses(i)
  {
    FrameLayout(i);
    if Parses(i) {
      LaidOutParses(Frame(i), i);
    }
    if Parse(Frame(i)) == MetaOf(i) {
      LaidOutParsesOnlyIf(Frame(i), i);
    }
  }

  /** A frame whose size is a multiple of 256 is taken for a ping. */
  lemma MultipleOf256IsPing(i: Instr)
    ensures Parse(Frame(i)) == Ping <==> FrameSize(i) % 256 == 0
  {
    FrameLayout(i);
    assert Frame(i)[0] == Frame(i)[..4][0] == FrameSize(i) % 256;
  }

  /** One such frame: one-letter names and 242 argument bytes. */
  lemma SizeOf256IsPing()
    ensures var i := Instr([97], [98], [99], Zeros(242));
            FrameSize(i) == 256 && Parse(Frame(i)) == Ping && Parse(Frame(i)) != MetaOf(i)
  {
    hide Parse, Frame;
    MultipleOf256IsPing(Instr([97], [98], [99], Zeros(242)));
  }
}
