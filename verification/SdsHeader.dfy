/** The header in front of a string: its type, its length and its allocation, in as many bytes
    as the type has. The last byte, right in front of the string, holds the type; in type 5 it
    holds the length too, and there is nothing else. */
module SdsHeader {
  import opened Bytes

  /** The header types, named by the bits of their length field. */
  datatype Kind = K5 | K8 | K16 | K32 | K64

  /** One more than the largest length of the type. */
  function Modulus(kind: Kind): (m: nat)
    ensures 32 <= m <= TWO_64
  {
    match kind
    case K5 => 32
    case K8 => 256
    case K16 => 65536
    case K32 => TWO_32
    case K64 => TWO_64
  }

  /** A length stored in a field of the type. */
  function Stored(kind: Kind, size: nat): (r: nat)
    ensures r < Modulus(kind)
    ensures size < Modulus(kind) ==> r == size
  {
    size % Modulus(kind)
  }

  /** The bytes of the length field, and of the allocation field behind it. */
  function Width(kind: Kind): nat {
    match kind
    case K5 => 0
    case K8 => 1
    case K16 => 2
    case K32 => 4
    case K64 => 8
  }

  function Code(kind: Kind): (c: byte)
    ensures c < 5
  {
    match kind
    case K5 => 0
    case K8 => 1
    case K16 => 2
    case K32 => 3
    case K64 => 4
  }

  function KindOf(flags: byte): (kind: Kind)
    ensures flags % 8 < 5 ==> Code(kind) == flags % 8
  {
    match flags % 8
    case 0 => K5
    case 1 => K8
    case 2 => K16
    case 3 => K32
    case _ => K64
  }

  predicate WellFormed(h: bytes) {
    h != [] && h[|h| - 1] % 8 < 5 && |h| == 2 * Width(KindOf(h[|h| - 1])) + 1
  }

  type Header = h: bytes | WellFormed(h) witness [0]

  function TypeOf(h: Header): Kind { KindOf(h[|h| - 1]) }

  function LenBytes(h: Header): (b: bytes)
    ensures |b| == Width(TypeOf(h))
  {
    h[..Width(TypeOf(h))]
  }

  function AllocBytes(h: Header): (b: bytes)
    ensures |b| == Width(TypeOf(h))
  {
    h[Width(TypeOf(h))..2 * Width(TypeOf(h))]
  }

  /** The fields and the flag byte put together. */
  function Assemble(len: bytes, alloc: bytes, flags: byte): (h: Header)
    requires flags % 8 < 5 && |len| == |alloc| == Width(KindOf(flags))
    ensures TypeOf(h) == KindOf(flags) && LenBytes(h) == len && AllocBytes(h) == alloc
  {
    len + alloc + [flags]
  }

  /** sdslen */
  function LenIn(h: Header): nat {
    if TypeOf(h) == K5 then h[0] / 8 else Unsigned(LenBytes(h))
  }

  /** sdsalloc */
  function AllocIn(h: Header): (n: nat)
    ensures TypeOf(h) == K5 ==> n == LenIn(h)
  {
    if TypeOf(h) == K5 then h[0] / 8 else Unsigned(AllocBytes(h))
  }

  /** The header of type 5: its length in the upper five bits, the bits above them lost. */
  function Short(len: nat): (h: Header)
    ensures TypeOf(h) == K5
  {
    [8 * (len % 32)]
  }

  /** sdssetlen */
  function WithLen(h: Header, len: nat): (h': Header)
    ensures TypeOf(h') == TypeOf(h)
  {
    if TypeOf(h) == K5 then Short(len)
    else Assemble(LittleEndian(len, Width(TypeOf(h))), AllocBytes(h), h[|h| - 1])
  }

  /** sdssetalloc */
  function WithAlloc(h: Header, alloc: nat): (h': Header)
    ensures TypeOf(h') == TypeOf(h)
  {
    if TypeOf(h) == K5 then h
    else Assemble(LenBytes(h), LittleEndian(alloc, Width(TypeOf(h))), h[|h| - 1])
  }

  /** A new header of the type. */
  function NewHeader(kind: Kind, len: nat): (h: Header)
    ensures TypeOf(h) == kind
  {
    if kind == K5 then Short(len)
    else Assemble(LittleEndian(len, Width(kind)), LittleEndian(len, Width(kind)), Code(kind))
  }

  /** What is read back from a field is the value modulo the width of the field. */
  lemma {:induction false} UnsignedOfField(n: nat, width: nat)
    ensures Unsigned(LittleEndian(n, width)) == n % Pow256(width)
    decreases width
  {
    if width > 0 {
      var low, p := n % 256, Pow256(width - 1);
      UnsignedOfField(n / 256, width - 1);
      assert LittleEndian(n, width)[1..] == LittleEndian(n / 256, width - 1);
      SplitModulo(n, p);
    }
  }

  lemma SplitModulo(n: nat, p: nat)
    requires p > 0
    ensures n % 256 + 256 * (n / 256 % p) == n % (256 * p)
  {
    var q, r := n / 256 / p, n / 256 % p;
    var rest := n % 256 + 256 * r;
    assert n / 256 == p * q + r;
    assert n == 256 * p * q + rest;
    assert rest < 256 * p;
    ModuloIs(n, 256 * p, q, rest);
  }

  lemma ModuloIs(n: nat, m: nat, q: nat, r: nat)
    requires m > 0 && n == m * q + r && r < m
    ensures n % m == r
  {
    var a, b := n / m, n % m;
    assert n == m * a + b;
    if a > q {
      assert m * (a - q) == r - b;
      MultipleIsLarge(m, a - q);
    } else if a < q {
      assert m * (q - a) == b - r;
      MultipleIsLarge(m, q - a);
    }
  }

  lemma MultipleIsLarge(m: nat, d: nat)
    requires d > 0
    ensures m * d >= m
  {
    assert m * d == m + m * (d - 1);
  }

  lemma FieldModulus(kind: Kind)
    ensures kind != K5 ==> Pow256(Width(kind)) == Modulus(kind)
  {
    Pow256Values();
    assert Pow256(1) == 256;
  }

  lemma ShortReadsBack(len: nat)
    ensures LenIn(Short(len)) == Stored(K5, len)
  {
  }

  lemma FieldReadsBack(kind: Kind, n: nat)
    requires kind != K5
    ensures Unsigned(LittleEndian(n, Width(kind))) == Stored(kind, n)
  {
    UnsignedOfField(n, Width(kind));
    FieldModulus(kind);
  }

  /** The length that is set is read back modulo what the type can hold; type and allocation
      stay, but in type 5 the allocation is the length. */
  lemma LenReadsBack(h: Header, len: nat)
    ensures LenIn(WithLen(h, len)) == Stored(TypeOf(h), len)
    ensures TypeOf(h) != K5 ==> AllocIn(WithLen(h, len)) == AllocIn(h)
    ensures TypeOf(h) == K5 ==> AllocIn(WithLen(h, len)) == LenIn(WithLen(h, len))
  {
    hide Stored, LittleEndian, Unsigned, Short, Assemble, LenBytes, AllocBytes, TypeOf;
    if TypeOf(h) == K5 {
      ShortReadsBack(len);
    } else {
      FieldReadsBack(TypeOf(h), len);
    }
  }

  /** So is the allocation, but type 5 has none; type and length stay. */
  lemma AllocReadsBack(h: Header, alloc: nat)
    ensures LenIn(WithAlloc(h, alloc)) == LenIn(h)
    ensures AllocIn(WithAlloc(h, alloc)) == if TypeOf(h) == K5 then LenIn(h) else Stored(TypeOf(h), alloc)
  {
    hide Stored, LittleEndian, Unsigned, Short, Assemble, LenBytes, AllocBytes, TypeOf;
    if TypeOf(h) != K5 {
      FieldReadsBack(TypeOf(h), alloc);
    }
  }

  lemma NewReadsBack(kind: Kind, len: nat)
    ensures LenIn(NewHeader(kind, len)) == Stored(kind, len) == AllocIn(NewHeader(kind, len))
  {
    hide Stored, LittleEndian, Unsigned, Short, Assemble, LenBytes, AllocBytes, TypeOf;
    if kind == K5 {
      ShortReadsBack(len);
    } else {
      FieldReadsBack(kind, len);
    }
  }

  /** The bytes themselves: length, allocation and type, or length and type in one byte. */
  lemma HeaderBytes(len: nat, alloc: nat)
    ensures WithAlloc(NewHeader(K5, len), alloc) == [8 * (len % 32) + 0]
    ensures WithAlloc(NewHeader(K8, len), alloc) == [len % 256] + [alloc % 256] + [1]
    ensures WithAlloc(NewHeader(K16, len), alloc) == LittleEndian(len, 2) + LittleEndian(alloc, 2) + [2]
    ensures WithAlloc(NewHeader(K32, len), alloc) == Le32(len) + Le32(alloc) + [3]
    ensures WithAlloc(NewHeader(K64, len), alloc) == Le64(len) + Le64(alloc) + [4]
  {
    AllocReplaced(K8, len, alloc);
    AllocReplaced(K16, len, alloc);
    AllocReplaced(K32, len, alloc);
    AllocReplaced(K64, len, alloc);
    assert LittleEndian(len, 1) == [len % 256] && LittleEndian(alloc, 1) == [alloc % 256];
  }

  lemma AllocReplaced(kind: Kind, len: nat, alloc: nat)
    requires kind != K5
    ensures WithAlloc(NewHeader(kind, len), alloc)
         == LittleEndian(len, Width(kind)) + LittleEndian(alloc, Width(kind)) + [Code(kind)]
  {
    hide LittleEndian;
    var h := NewHeader(kind, len);
    assert h[|h| - 1] == Code(kind);
    assert LenBytes(h) == LittleEndian(len, Width(kind));
  }

  /** Setting the length changes nothing but the bytes it is stored in. */
  lemma LenBytesOnly(h: Header, len: nat)
    requires TypeOf(h) != K5
    ensures var w := Width(TypeOf(h)); WithLen(h, len)[w..] == h[w..] && WithLen(h, len)[..w] == LittleEndian(len, w)
  {
    hide LittleEndian;
    var w := Width(TypeOf(h));
    assert h[w..] == AllocBytes(h) + [h[|h| - 1]];
  }
}
