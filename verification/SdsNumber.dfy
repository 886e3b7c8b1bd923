/** Integers written as decimal numerals, digits first in reverse and then turned around in
    place. */
module SdsNumber {
  import opened Bytes

  const MINUS: byte := 45
  const ZERO: byte := 48
  const MIN_LL: int := -0x8000_0000_0000_0000
  const LLSTR_SIZE: nat := 21

  predicate IsDigit(c: byte) { ZERO <= c <= 57 }

  /** The number that digits stand for. */
  function ValueOf(digits: bytes): int {
    if digits == [] then 0
    else 10 * ValueOf(digits[..|digits| - 1]) + (digits[|digits| - 1] - ZERO)
  }

  /** Digits only, no leading zero, and the value is v. */
  ghost predicate IsNumeral(s: bytes, v: nat) {
    && s != [] && (forall k :: 0 <= k < |s| ==> IsDigit(s[k]))
    && (s[0] == ZERO ==> |s| == 1)
    && ValueOf(s) == v
  }

  ghost predicate IsDecimal(s: bytes, value: int) {
    if value < 0 then s != [] && s[0] == MINUS && IsNumeral(s[1..], -value) else IsNumeral(s, value)
  }

  function Numeral(v: nat): (s: bytes)
    ensures s != []
  {
    if v < 10 then [ZERO + v] else Numeral(v / 10) + [ZERO + v % 10]
  }

  function Decimal(value: int): bytes {
    if value < 0 then [MINUS] + Numeral(-value) else Numeral(value)
  }

  lemma {:induction false} NumeralIsNumeral(v: nat)
    ensures IsNumeral(Numeral(v), v)
    ensures v > 0 ==> Numeral(v)[0] != ZERO
  {
    var s := Numeral(v);
    if v >= 10 {
      NumeralIsNumeral(v / 10);
      assert s[..|s| - 1] == Numeral(v / 10);
    } else {
      assert s[..0] == [];
    }
  }

  lemma {:induction false} ValueIsPositive(s: bytes)
    requires s != [] && s[0] != ZERO && forall k :: 0 <= k < |s| ==> IsDigit(s[k])
    ensures ValueOf(s) > 0
    decreases |s|
  {
    if |s| > 1 {
      ValueIsPositive(s[..|s| - 1]);
    } else {
      assert s[..0] == [];
    }
  }

  /** There is no other numeral. */
  lemma {:induction false} NumeralIsUnique(s: bytes, v: nat)
    requires IsNumeral(s, v)
    ensures s == Numeral(v)
    decreases |s|
  {
    var n := |s| - 1;
    var front, low := s[..n], s[n] - ZERO;
    assert s == front + [s[n]];
    if n == 0 {
      assert ValueOf(front) == 0;
    } else {
      ValueIsPositive(front);
      var rest: nat := ValueOf(front);
      NumeralIsUnique(front, rest);
      assert v / 10 == rest && v % 10 == low;
    }
  }

  /** Decimal is the one numeral without leading zeros for any integer. */
  lemma DecimalIsTheNumeral(s: bytes, value: int)
    ensures s == Decimal(value) <==> IsDecimal(s, value)
  {
    if value < 0 {
      NumeralIsNumeral(-value);
      if IsDecimal(s, value) {
        NumeralIsUnique(s[1..], -value);
        assert s == [s[0]] + s[1..];
      }
    } else {
      NumeralIsNumeral(value);
      if IsDecimal(s, value) {
        NumeralIsUnique(s, value);
      }
    }
  }

  function Pow10(k: nat): (p: nat)
    ensures p > 0
  {
    if k == 0 then 1 else 10 * Pow10(k - 1)
  }

  lemma {:induction false} NumeralLength(v: nat, k: nat)
    requires v < Pow10(k) && k > 0
    ensures |Numeral(v)| <= k
  {
    if v >= 10 {
      assert v / 10 < Pow10(k - 1);
      NumeralLength(v / 10, k - 1);
    }
  }

  lemma Pow10Values()
    ensures Pow10(19) == 10_000_000_000_000_000_000 && Pow10(20) == 100_000_000_000_000_000_000
  {
    assert Pow10(5) == 100_000;
    assert Pow10(10) == 10_000_000_000;
    assert Pow10(15) == 1_000_000_000_000_000;
  }

  /** The whole 64-bit range fits 20 characters, signs included. */
  lemma DecimalLength(value: int)
    requires MIN_LL <= value < TWO_64
    ensures |Decimal(value)| < LLSTR_SIZE
  {
    Pow10Values();
    if value < 0 {
      NumeralLength(-value, 19);
    } else {
      NumeralLength(value, 20);
    }
  }

  function Reversed(s: bytes): (r: bytes)
    ensures |r| == |s|
    ensures forall k :: 0 <= k < |s| ==> r[k] == s[|s| - 1 - k]
  {
    seq(|s|, k requires 0 <= k < |s| => s[|s| - 1 - k])
  }

  lemma ReversedAppend(s: bytes, c: byte)
    ensures Reversed(s + [c]) == [c] + Reversed(s)
  {
  }

  /** The digits still to come: those of v, but none when the last was written. */
  ghost function ToCome(v: nat, written: nat): bytes {
    if v == 0 && written > 0 then [] else Numeral(v)
  }

  /** The digit loop; last digit first. */
  method WriteDigits(s: array<byte>, value: nat) returns (p: nat)
    requires |Numeral(value)| < s.Length
    modifies s
    ensures 0 < p < s.Length && Reversed(s[..p]) == Numeral(value)
  {
    var v := value;
    p := 0;
    while v != 0 || p == 0
      invariant p <= s.Length && Numeral(value) == ToCome(v, p) + Reversed(s[..p])
      decreases v, 1 - p
    {
      DigitTurn(v, p, s[..p]);
      s[p] := ZERO + v % 10;
      assert s[..p + 1] == s[..p] + [s[p]];
      p, v := p + 1, v / 10;
    }
  }

  lemma DigitTurn(v: nat, p: nat, done: bytes)
    requires |done| == p && (v != 0 || p == 0)
    ensures ToCome(v, p) + Reversed(done) == ToCome(v / 10, p + 1) + Reversed(done + [ZERO + v % 10])
    ensures |Reversed(done)| == p && |ToCome(v, p)| > 0
  {
    ReversedAppend(done, ZERO + v % 10);
    assert ToCome(v, p) == ToCome(v / 10, p + 1) + [ZERO + v % 10];
  }

  /** Turns s[..len] around in place. */
  method ReverseInPlace(s: array<byte>, len: nat)
    requires 0 < len <= s.Length
    modifies s
    ensures s[..len] == Reversed(old(s[..len]))
    ensures s[len..] == old(s[len..])
  {
    var lo, hi := 0, len - 1;
    while lo < hi
      invariant 0 <= lo <= len - hi && lo + hi == len - 1 && hi >= -1
      invariant lo <= hi + 1
      invariant forall k :: 0 <= k < lo || hi < k < len ==> s[k] == old(s[len - 1 - k])
      invariant forall k :: lo <= k <= hi || len <= k < s.Length ==> s[k] == old(s[k])
    {
      s[lo], s[hi] := s[hi], s[lo];
      lo, hi := lo + 1, hi - 1;
    }
  }

  /** The terminator, and the digits turned around. */
  method Finish(s: array<byte>, len: nat)
    requires 0 < len < s.Length
    modifies s
    ensures s[..len] == Reversed(old(s[..len])) && s[len] == 0
  {
    s[len] := 0;
    assert s[..len] == old(s[..len]);
    ReverseInPlace(s, len);
    assert s[len..][0] == 0;
  }

  /** sdsull2str: the numeral of v with its terminator. */
  method Ull2Str(s: array<byte>, v: nat) returns (len: nat)
    requires v < TWO_64 && s.Length >= LLSTR_SIZE
    modifies s
    ensures len < LLSTR_SIZE && s[..len] == Decimal(v) && s[len] == 0
  {
    DecimalLength(v);
    len := WriteDigits(s, v);
    Finish(s, len);
  }

  /** sdsll2str */
  method Ll2Str(s: array<byte>, value: int) returns (len: nat)
    requires MIN_LL <= value < TWO_63 && s.Length >= LLSTR_SIZE
    modifies s
    ensures len < LLSTR_SIZE && s[..len] == Decimal(value) && s[len] == 0
  {
    DecimalLength(value);
    DecimalReversed(value);
    hide *;
    var v: nat;
    if value < 0 {
      if value != MIN_LL {
        v := -value;
      } else {
        v := (TWO_63 - 1) + 1;
      }
    } else {
      v := value;
    }
    len := WriteDigits(s, v);
    ghost var digits := s[..len];
    if value < 0 {
      s[len] := MINUS;
      len := len + 1;
      assert s[..len] == digits + [MINUS];
    }
    Finish(s, len);
  }

  /** A minus written behind the digits ends up in front of them. */
  lemma DecimalReversed(value: int)
    ensures value >= 0 ==> Decimal(value) == Numeral(value)
    ensures value < 0 ==> |Decimal(value)| == 1 + |Numeral(-value)|
    ensures value < 0 ==>
      forall s: bytes :: Reversed(s) == Numeral(-value) ==> Reversed(s + [MINUS]) == Decimal(value)
  {
    forall s: bytes | value < 0 && Reversed(s) == Numeral(-value)
      ensures Reversed(s + [MINUS]) == Decimal(value)
    {
      ReversedAppend(s, MINUS);
    }
  }

  /** The digits are the characters "0" to "9", and a negative number begins with "-". */
  lemma DigitsAreCharacters(d: int)
    requires 0 <= d < 10
    ensures Decimal(d) == ["0123456789"[d] as int]
    ensures d > 0 ==> Decimal(-d) == ['-' as int, "0123456789"[d] as int]
  {
    if d < 5 {
      assert d == 0 || d == 1 || d == 2 || d == 3 || d == 4;
    } else {
      assert d == 5 || d == 6 || d == 7 || d == 8 || d == 9;
    }
  }
}
