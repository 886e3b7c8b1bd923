/** A pack of up to eight strings in one memory block that can be sent as the arguments
    of an instruction. */
module StringPack {
  import opened Bytes
  import opened WireFormat

  const MAX_STRINGS: nat := 8
  /** pack_size, str_count and eight offsets, eight bytes each. */
  const HEADER: nat := 80
  const TABLE: nat := 16

  /** Where string n starts, counted from the end of the header. */
  function StringOffset(ss: seq<CString>, n: nat): nat
    requires n <= |ss|
  {
    if n == 0 then 0 else StringOffset(ss, n - 1) + |ss[n - 1]| + 2
  }

  function PackSize(ss: seq<CString>): nat { HEADER + StringOffset(ss, |ss|) }

  /** Table entry k. */
  function Entry(pack: bytes, k: nat): (e: bytes)
    requires k < MAX_STRINGS && |pack| >= HEADER
  {
    pack[TABLE + 8 * k..TABLE + 8 * k + 8]
  }

  predicate EntryIs(pack: bytes, ss: seq<CString>, k: nat)
    requires k < |ss| <= MAX_STRINGS && |pack| >= HEADER
  {
    Entry(pack, k) == Le64(StringOffset(ss, k))
  }

  predicate StringAt(pack: bytes, ss: seq<CString>, k: nat)
    requires k < |ss|
  {
    Holds(pack, HEADER + StringOffset(ss, k), ss[k])
  }

  /** The first n offsets are recorded and the other entries are still zero. */
  ghost predicate TableDone(pack: bytes, ss: seq<CString>, n: nat)
    requires n <= |ss| <= MAX_STRINGS
  {
    && |pack| >= HEADER
    && (forall k :: 0 <= k < n ==> EntryIs(pack, ss, k))
    && (forall k :: n <= k < MAX_STRINGS ==> Entry(pack, k) == Zeros(8))
  }

  /** The first n strings are in place and everything behind them is still zero. */
  ghost predicate StringsDone(pack: bytes, ss: seq<CString>, n: nat)
    requires n <= |ss| <= MAX_STRINGS
  {
    && |pack| == PackSize(ss) && HEADER + StringOffset(ss, n) <= |pack|
    && (forall k :: 0 <= k < n ==> StringAt(pack, ss, k))
    && pack[HEADER + StringOffset(ss, n)..] == Zeros(|pack| - HEADER - StringOffset(ss, n))
  }

  /** A finished pack: size, count, offset table and strings. */
  ghost predicate Packed(pack: bytes, ss: seq<CString>)
    requires |ss| <= MAX_STRINGS
  {
    TableDone(pack, ss, |ss|) && StringsDone(pack, ss, |ss|)
    && pack[..8] == Le64(PackSize(ss)) && pack[8..TABLE] == Le64(|ss|)
  }

  /** wimp_instr_pack_get_string: None when the offset is not in the table, as for a negative
      index, or the string leaves the block. */
  function GetString(pack: bytes, index: int): Option<CString>
    requires |pack| >= HEADER && index < MAX_STRINGS
  {
    if index < 0 then None else CStringAt(pack, HEADER + Unsigned(Entry(pack, index)))
  }

  lemma StringSurvives(p: bytes, off: nat, src: bytes, at: nat, s: CString)
    requires Holds(p, at, s) && off + |src| <= |p|
    requires at + |s| < off || off + |src| <= at
    ensures Holds(Overwrite(p, off, src), at, s)
  {
    OverwriteKeeps(p, off, src, at, at + |s|);
    OverwriteKeeps(p, off, src, at + |s|, at + |s| + 1);
    assert p[at + |s|..at + |s| + 1][0] == 0;
  }

  lemma StringArrives(p: bytes, off: nat, s: CString)
    requires off + |s| + 1 <= |p|
    ensures Holds(Overwrite(p, off, s + [0]), off, s)
  {
    OverwriteHas(p, off, s + [0]);
    var q := Overwrite(p, off, s + [0]);
    assert q[off..off + |s|] == q[off..off + |s| + 1][..|s|];
    assert q[off + |s|] == q[off..off + |s| + 1][|s|];
  }

  lemma EntrySurvives(p: bytes, off: nat, src: bytes, k: nat)
    requires |p| >= HEADER && k < MAX_STRINGS && off + |src| <= |p|
    requires TABLE + 8 * k + 8 <= off || off + |src| <= TABLE + 8 * k
    ensures Entry(Overwrite(p, off, src), k) == Entry(p, k)
  {
    OverwriteKeeps(p, off, src, TABLE + 8 * k, TABLE + 8 * k + 8);
  }

  lemma TailSurvives(p: bytes, off: nat, src: bytes, lo: nat, end: nat)
    requires off + |src| <= end <= |p| && lo <= end
    requires p[lo..] == Zeros(|p| - lo)
    ensures Overwrite(p, off, src)[end..] == Zeros(|p| - end)
  {
    OverwriteKeeps(p, off, src, end, |p|);
    assert p[end..] == p[lo..][end - lo..];
  }

  lemma TableSurvives(p: bytes, ss: seq<CString>, n: nat, off: nat, src: bytes)
    requires n <= |ss| <= MAX_STRINGS && TableDone(p, ss, n)
    requires off + |src| <= |p| && (HEADER <= off || off + |src| <= TABLE)
    ensures TableDone(Overwrite(p, off, src), ss, n)
  {
    forall k | 0 <= k < MAX_STRINGS ensures Entry(Overwrite(p, off, src), k) == Entry(p, k) {
      EntrySurvives(p, off, src, k);
    }
    forall k | 0 <= k < n ensures EntryIs(Overwrite(p, off, src), ss, k) {
      assert EntryIs(p, ss, k);
    }
  }

  lemma StringsSurvive(p: bytes, ss: seq<CString>, n: nat, off: nat, src: bytes)
    requires n <= |ss| <= MAX_STRINGS && StringsDone(p, ss, n)
    requires off + |src| <= HEADER
    ensures StringsDone(Overwrite(p, off, src), ss, n)
  {
    forall k | 0 <= k < n ensures StringAt(Overwrite(p, off, src), ss, k) {
      assert StringAt(p, ss, k);
      StringSurvives(p, off, src, HEADER + StringOffset(ss, k), ss[k]);
    }
    var end := HEADER + StringOffset(ss, n);
    TailSurvives(p, off, src, end, end);
  }

  lemma StringAdded(p: bytes, ss: seq<CString>, n: nat, off: nat, src: bytes)
    requires n < |ss| <= MAX_STRINGS && StringsDone(p, ss, n)
    requires off == HEADER + StringOffset(ss, n) && src == ss[n] + [0]
    requires HEADER + StringOffset(ss, n + 1) <= |p|
    ensures StringsDone(Overwrite(p, off, src), ss, n + 1)
  {
    forall k | 0 <= k < n + 1 ensures StringAt(Overwrite(p, off, src), ss, k) {
      if k == n {
        StringArrives(p, off, ss[n]);
      } else {
        OffsetsGrow(ss, k, n);
        assert StringAt(p, ss, k);
        StringSurvives(p, off, src, HEADER + StringOffset(ss, k), ss[k]);
      }
    }
    TailSurvives(p, off, src, off, HEADER + StringOffset(ss, n + 1));
  }

  lemma EntryAdded(p: bytes, ss: seq<CString>, n: nat, v: bytes)
    requires n < |ss| <= MAX_STRINGS && TableDone(p, ss, n)
    requires v == Le64(StringOffset(ss, n))
    ensures TableDone(Overwrite(p, TABLE + 8 * n, v), ss, n + 1)
  {
    var q := Overwrite(p, TABLE + 8 * n, v);
    forall k | 0 <= k < n + 1 ensures EntryIs(q, ss, k) {
      if k == n {
        OverwriteHas(p, TABLE + 8 * n, v);
      } else {
        assert EntryIs(p, ss, k);
        EntrySurvives(p, TABLE + 8 * n, v, k);
      }
    }
    forall k | n < k < MAX_STRINGS ensures Entry(q, k) == Zeros(8) {
      EntrySurvives(p, TABLE + 8 * n, v, k);
    }
  }

  /** Copies string i with its terminator behind the strings before it. */
  method CopyString(pack: array<byte>, ss: seq<CString>, i: nat, offset: nat)
    requires i < |ss| <= MAX_STRINGS && offset == StringOffset(ss, i)
    requires HEADER + StringOffset(ss, i + 1) <= pack.Length
    requires TableDone(pack[..], ss, i) && StringsDone(pack[..], ss, i)
    modifies pack
    ensures TableDone(pack[..], ss, i) && StringsDone(pack[..], ss, i + 1)
  {
    StringAdded(pack[..], ss, i, HEADER + offset, ss[i] + [0]);
    TableSurvives(pack[..], ss, i, HEADER + offset, ss[i] + [0]);
    hide *;
    var _ := CopyInto(pack, HEADER + offset, ss[i] + [0]);
  }

  method RecordOffset(pack: array<byte>, ss: seq<CString>, i: nat, offset: nat)
    requires i < |ss| <= MAX_STRINGS && offset == StringOffset(ss, i)
    requires TableDone(pack[..], ss, i) && StringsDone(pack[..], ss, i + 1)
    modifies pack
    ensures TableDone(pack[..], ss, i + 1) && StringsDone(pack[..], ss, i + 1)
  {
    EntryAdded(pack[..], ss, i, Le64(offset));
    StringsSurvive(pack[..], ss, i + 1, TABLE + 8 * i, Le64(offset));
    hide *;
    var _ := CopyInto(pack, TABLE + 8 * i, Le64(offset));
  }

  method PackStrings(ss: seq<CString>) returns (pack: array<byte>)
    requires |ss| <= MAX_STRINGS
    ensures fresh(pack) && Packed(pack[..], ss)
  {
    var total := HEADER;
    for i := 0 to |ss|
      invariant total == HEADER + StringOffset(ss, i)
    {
      total := total + |ss[i]| + 2;
    }
    pack := new byte[total](_ => 0);
    var offset := 0;
    assert TableDone(pack[..], ss, 0) && StringsDone(pack[..], ss, 0);
    for i := 0 to |ss|
      invariant offset == StringOffset(ss, i)
      invariant TableDone(pack[..], ss, i) && StringsDone(pack[..], ss, i)
    {
      OffsetsGrow(ss, i + 1, |ss|);
      CopyString(pack, ss, i, offset);
      RecordOffset(pack, ss, i, offset);
      offset := offset + |ss[i]| + 2;
    }
    WriteSizes(pack, ss, total);
  }

  method WriteSizes(pack: array<byte>, ss: seq<CString>, total: nat)
    requires |ss| <= MAX_STRINGS && total == PackSize(ss)
    requires TableDone(pack[..], ss, |ss|) && StringsDone(pack[..], ss, |ss|)
    modifies pack
    ensures Packed(pack[..], ss)
  {
    var src := Le64(total) + Le64(|ss|);
    TableSurvives(pack[..], ss, |ss|, 0, src);
    StringsSurvive(pack[..], ss, |ss|, 0, src);
    OverwriteHas(pack[..], 0, src);
    var next := CopyInto(pack, 0, src);
    assert pack[..][..8] == pack[..][..TABLE][..8];
    assert pack[..][8..TABLE] == pack[..][..TABLE][8..];
  }

  /** Strings occupy disjoint stretches of the block, in order. */
  lemma {:induction false} OffsetsGrow(ss: seq<CString>, i: nat, j: nat)
    requires i <= j <= |ss|
    ensures StringOffset(ss, i) <= StringOffset(ss, j)
    ensures i < j ==> StringOffset(ss, i) + |ss[i]| + 2 <= StringOffset(ss, j)
  {
    if i < j {
      OffsetsGrow(ss, i, j - 1);
    }
  }

  lemma UnsignedOfZeros()
    ensures Unsigned(Zeros(8)) == 0
  {
    ZeroUnsigned(Zeros(8));
  }

  lemma {:induction false} ZeroUnsigned(z: bytes)
    requires forall k :: 0 <= k < |z| ==> z[k] == 0
    ensures Unsigned(z) == 0
  {
    if z != [] {
      ZeroUnsigned(z[1..]);
    }
  }

  lemma GetStringAtOffset(pack: bytes, index: nat, off: nat, s: CString)
    requires |pack| >= HEADER && index < MAX_STRINGS
    requires Unsigned(Entry(pack, index)) == off && Holds(pack, HEADER + off, s)
    ensures GetString(pack, index) == Some(s)
  {
    CStringIs(pack, HEADER + off, s);
  }

  /** Every packed string comes back by its index. An index beyond the count, still inside
      the table, yields the first string, and with no string packed it leaves the block. */
  lemma GetStringOfPacked(pack: bytes, ss: seq<CString>, index: int)
    requires |ss| <= MAX_STRINGS && Packed(pack, ss) && |pack| < TWO_64
    requires index < MAX_STRINGS
    ensures GetString(pack, index) ==
            if index < 0 then None
            else if index < |ss| then Some(ss[index])
            else if ss != [] then Some(ss[0])
            else None
  {
    if index < 0 {
    } else if index < |ss| {
      OffsetsGrow(ss, index, |ss|);
      UnsignedOfLe64(StringOffset(ss, index));
      assert EntryIs(pack, ss, index) && StringAt(pack, ss, index);
      GetStringAtOffset(pack, index, StringOffset(ss, index), ss[index]);
    } else {
      UnsignedOfZeros();
      if ss != [] {
        assert StringAt(pack, ss, 0);
        GetStringAtOffset(pack, index, 0, ss[0]);
      }
    }
  }

  /** The strings and their terminators occupy disjoint stretches inside the block. */
  lemma RegionsAreDisjoint(pack: bytes, ss: seq<CString>, i: nat, j: nat)
    requires i < j < |ss| <= MAX_STRINGS && Packed(pack, ss)
    ensures HEADER <= HEADER + StringOffset(ss, i)
         < HEADER + StringOffset(ss, i) + |ss[i]| + 2 <= HEADER + StringOffset(ss, j)
    ensures HEADER + StringOffset(ss, j) + |ss[j]| + 2 <= |pack|
  {
    OffsetsGrow(ss, i, j);
    OffsetsGrow(ss, j, |ss|);
  }

  /** A pack that travels as the arguments of an instruction can be read where the parser
      says the arguments are. */
  lemma PackTravels(i: Instr, ss: seq<CString>, index: nat)
    requires |ss| <= MAX_STRINGS && Packed(i.args, ss) && Parses(i) && index < |ss|
    ensures Parse(Frame(i)).Meta? && Parse(Frame(i)).args == Some(ArgsOffset(i))
    ensures Parse(Frame(i)).argBytes == |Frame(i)| - ArgsOffset(i)
    ensures GetString(Frame(i)[ArgsOffset(i)..], index) == Some(ss[index])
  {
    ParseInvertsBundle(i);
    FrameLayout(i);
    GetStringOfPacked(i.args, ss, index);
  }
}
