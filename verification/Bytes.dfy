/** Bytes as the C code sees them on a little-endian host with 32-bit int32_t and
    64-bit size_t: C strings, integers laid out in memory, and strcmp. */
module Bytes {

  type byte = b: int | 0 <= b < 256

  type bytes = seq<byte>

  /** The bytes of a C string in front of its terminator. */
  type CString = s: seq<byte> | 0 !in s witness []

  datatype Option<+T> = None | Some(value: T)

  const TWO_31: int := 0x8000_0000
  const TWO_32: nat := 0x1_0000_0000
  const TWO_63: nat := 0x8000_0000_0000_0000
  const TWO_64: nat := 0x1_0000_0000_0000_0000

  /** The low `width` bytes of n, least significant first. */
  function LittleEndian(n: nat, width: nat): (r: bytes)
    ensures |r| == width
    ensures width > 0 ==> r[0] == n % 256
    decreases n, width
  {
    if width == 0 then [] else [n % 256] + LittleEndian(n / 256, width - 1)
  }

  /** The unsigned value of bytes stored least significant first. */
  function Unsigned(s: bytes): nat {
    if s == [] then 0 else var low: int := s[0]; low + 256 * Unsigned(s[1..])
  }

  function Le32(n: nat): bytes { LittleEndian(n, 4) }
  function Le64(n: nat): bytes { LittleEndian(n, 8) }

  /** The int32_t value of four bytes. */
  function Int32(s: bytes): int
    requires |s| == 4
  {
    var u := Unsigned(s);
    if u < TWO_31 then u else u - TWO_32
  }

  /** An int32_t assigned to a size_t. */
  function Int32ToSize(n: int): int {
    if n < 0 then n + TWO_64 else n
  }

  function Pow256(width: nat): (p: nat)
    ensures p > 0
  {
    if width == 0 then 1 else 256 * Pow256(width - 1)
  }

  lemma {:induction false} UnsignedIsBounded(s: bytes)
    ensures Unsigned(s) < Pow256(|s|)
  {
    if s != [] {
      UnsignedIsBounded(s[1..]);
    }
  }

  /** What was laid out in enough bytes is read back. */
  lemma {:induction false} UnsignedOfLittleEndian(n: nat, width: nat)
    requires n < Pow256(width)
    ensures Unsigned(LittleEndian(n, width)) == n
    decreases width
  {
    if width > 0 {
      UnsignedOfLittleEndian(n / 256, width - 1);
      assert LittleEndian(n, width)[1..] == LittleEndian(n / 256, width - 1);
    }
  }

  lemma Pow256Values()
    ensures Pow256(4) == TWO_32 && Pow256(8) == TWO_64
  {
    assert Pow256(2) == 65536;
    assert Pow256(4) == TWO_32;
    assert Pow256(6) == 65536 * TWO_32;
  }

  /** Four bytes carry a size exactly when it is below 2^31. */
  lemma Int32OfLe32(n: nat)
    ensures n < TWO_31 ==> Int32(Le32(n)) == n
    ensures n < TWO_63 ==> (Int32ToSize(Int32(Le32(n))) == n <==> n < TWO_31)
  {
    Pow256Values();
    UnsignedIsBounded(Le32(n));
    if n < TWO_32 {
      UnsignedOfLittleEndian(n, 4);
    }
  }

  lemma UnsignedOfLe64(n: nat)
    requires n < TWO_64
    ensures Unsigned(Le64(n)) == n
  {
    Pow256Values();
    UnsignedOfLittleEndian(n, 8);
  }

  /** The C string that starts at `off`, if its terminator lies inside the buffer. */
  function CStringAt(buf: bytes, off: nat): (r: Option<CString>)
    ensures r.Some? ==> off + |r.value| < |buf|
    ensures r.Some? ==> buf[off..off + |r.value|] == r.value && buf[off + |r.value|] == 0
    decreases |buf| - off
  {
    if off >= |buf| then None
    else if buf[off] == 0 then Some([])
    else
      match CStringAt(buf, off + 1)
      case None => None
      case Some(rest) => Some([buf[off]] + rest)
  }

  /** Whatever starts at `off` and is followed by a terminator is the string there. */
  lemma {:induction false} CStringIs(buf: bytes, off: nat, s: CString)
    requires off + |s| < |buf|
    requires buf[off..off + |s|] == s && buf[off + |s|] == 0
    ensures CStringAt(buf, off) == Some(s)
    decreases |s|
  {
    if s == [] {
    } else {
      assert buf[off] == s[0];
      assert buf[off + 1..off + |s|] == s[1..];
      CStringIs(buf, off + 1, s[1..]);
    }
  }

  /** strcmp(&buf[off], s) == 0, or None when the comparison runs off the buffer. */
  function StrcmpEq(buf: bytes, off: nat, s: CString): (r: Option<bool>)
    decreases |s|
  {
    if off >= |buf| then None
    else if s == [] then Some(buf[off] == 0)
    else if buf[off] != s[0] then Some(false)
    else StrcmpEq(buf, off + 1, s[1..])
  }

  /** On a terminated string strcmp decides equality. */
  lemma {:induction false} StrcmpDecides(buf: bytes, off: nat, s: CString)
    requires CStringAt(buf, off).Some?
    ensures StrcmpEq(buf, off, s) == Some(CStringAt(buf, off).value == s)
    decreases |s|
  {
    if s != [] && buf[off] == s[0] {
      StrcmpDecides(buf, off + 1, s[1..]);
      var rest := CStringAt(buf, off + 1).value;
      assert [buf[off]] + rest == s <==> rest == s[1..] by {
        assert ([buf[off]] + rest)[1..] == rest;
        assert s == [s[0]] + s[1..];
      }
    }
  }

  /** The parts, glued together. */
  function Flatten<T>(ss: seq<seq<T>>): seq<T> {
    if ss == [] then [] else ss[0] + Flatten(ss[1..])
  }

  lemma ConcatAssoc<T>(a: seq<T>, b: seq<T>, c: seq<T>)
    ensures a + (b + c) == a + b + c
  {
  }

  lemma {:induction false} FlattenConcat<T>(a: seq<seq<T>>, b: seq<seq<T>>)
    ensures Flatten(a + b) == Flatten(a) + Flatten(b)
  {
    if a == [] {
      assert a + b == b;
    } else {
      assert (a + b)[1..] == a[1..] + b;
      FlattenConcat(a[1..], b);
    }
  }

  /** What memcpy(&buf[off], src, |src|) leaves in the buffer. */
  function Overwrite(buf: bytes, off: nat, src: bytes): (r: bytes)
    requires off + |src| <= |buf|
    ensures |r| == |buf|
  {
    buf[..off] + src + buf[off + |src|..]
  }

  lemma OverwriteHas(buf: bytes, off: nat, src: bytes)
    requires off + |src| <= |buf|
    ensures Overwrite(buf, off, src)[off..off + |src|] == src
  {
  }

  /** Bytes outside the copied stretch stay. */
  lemma OverwriteKeeps(buf: bytes, off: nat, src: bytes, lo: nat, hi: nat)
    requires off + |src| <= |buf| && lo <= hi <= |buf|
    requires hi <= off || off + |src| <= lo
    ensures Overwrite(buf, off, src)[lo..hi] == buf[lo..hi]
  {
  }

  /** memcpy; the result is the offset behind the copy. */
  method CopyInto(buf: array<byte>, offset: nat, src: bytes) returns (next: nat)
    requires offset + |src| <= buf.Length
    modifies buf
    ensures next == offset + |src|
    ensures buf[..] == Overwrite(old(buf[..]), offset, src)
    ensures buf[..next] == old(buf[..offset]) + src
  {
    forall k | 0 <= k < |src| {
      buf[offset + k] := src[k];
    }
    next := offset + |src|;
  }

  function Zeros(n: nat): (z: bytes)
    ensures |z| == n
    ensures forall k :: 0 <= k < n ==> z[k] == 0
  {
    seq(n, _ => 0)
  }
}
