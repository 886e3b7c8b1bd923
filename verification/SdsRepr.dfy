/** Writing bytes in quotes, escaped, so that the splitter gives them back. */
module SdsRepr {
  import opened Bytes
  import opened Sds
  import opened SdsArgs
  import G = SdsGrammar
  import S = SdsSplit

  predicate IsPrintable(c: byte) { 32 <= c <= 126 }

  function HexDigit(n: nat): (c: byte)
    requires n < 16
    ensures IsHex(c) && HexValue(c) == n
  {
    if n < 10 then 48 + n else 87 + n
  }

  /** How a byte is written. */
  function ReprByte(c: byte): bytes {
    if c == BACKSLASH || c == QUOTE then [BACKSLASH, c]
    else if c == 10 then [BACKSLASH, 110]
    else if c == 13 then [BACKSLASH, 114]
    else if c == 9 then [BACKSLASH, 116]
    else if c == 7 then [BACKSLASH, 97]
    else if c == 8 then [BACKSLASH, 98]
    else if IsPrintable(c) then [c]
    else [BACKSLASH, LETTER_X, HexDigit(c / 16), HexDigit(c % 16)]
  }

  function ReprBytes(s: bytes): bytes {
    if s == [] then [] else ReprByte(s[0]) + ReprBytes(s[1..])
  }

  function Repr(s: bytes): bytes { [QUOTE] + ReprBytes(s) + [QUOTE] }

  function ReprAll(ts: seq<bytes>): (r: seq<bytes>)
    ensures |r| == |ts|
  {
    if ts == [] then [] else [Repr(ts[0])] + ReprAll(ts[1..])
  }

  /** The item of the grammar that the writing of a byte is. */
  lemma ItemOf(c: byte) returns (it: G.Item)
    ensures G.Show(it) == ReprByte(c) && G.Value(it) == c
    ensures forall ahead :: G.Fits(InDouble, it, ahead)
  {
    if |ReprByte(c)| == 1 {
      it := G.Plain(c);
    } else if |ReprByte(c)| == 2 {
      it := G.Esc(ReprByte(c)[1]);
    } else {
      it := G.Hex(HexDigit(c / 16), HexDigit(c % 16));
    }
  }

  lemma {:induction false} ItemsOf(s: bytes) returns (items: seq<G.Item>)
    ensures G.ShowAll(items) == ReprBytes(s) && G.Values(items) == s
    ensures forall tail :: G.FitAll(InDouble, items, tail)
    decreases |s|
  {
    items := [];
    if s != [] {
      var it := ItemOf(s[0]);
      var rest := ItemsOf(s[1..]);
      items := [it] + rest;
      assert items[1..] == rest && s == [s[0]] + s[1..];
      hide G.Fits, ReprByte, G.Show, G.Value;
    }
  }

  lemma NoBareFits()
    ensures G.BareFits([]) && G.Values([]) == []
  {
  }

  /** A written value in front of a space, or at the end, is an argument. */
  lemma ReprIsArgument(s: bytes, behind: bytes)
    requires behind == [] || IsSpace(behind[0])
    ensures Args(Repr(s) + behind) == Behind([s], Args(behind))
  {
    hide Args, G.FitAll, G.ShowAll, G.Values, ReprBytes;
    G.ShowNothing();
    NoBareFits();
    var items := ItemsOf(s);
    var t := G.Quoted([], InDouble, items);
    assert [QUOTE] + (ReprBytes(s) + [QUOTE]) == Repr(s);
    assert [] + Repr(s) == Repr(s);
    assert G.ShowToken(t) == Repr(s);
    assert G.TokenValue(t) == s by {
      assert [] + s == s;
    }
    G.ArgsOfToken(t, behind);
  }

  lemma {:induction false} BlanksAreSkipped(gap: bytes, s: bytes)
    requires forall k :: 0 <= k < |gap| ==> IsSpace(gap[k])
    ensures Args(gap + s) == Args(s)
    decreases |gap|
  {
    if gap == [] {
      assert gap + s == s;
    } else {
      BlanksAreSkipped(gap[1..], s);
      G.BlankIsSkipped(gap + s);
      assert (gap + s)[1..] == gap[1..] + s;
    }
  }

  /** Whatever the values are, writing them, joining with blanks and splitting gives them
      back, and nothing else. */
  lemma {:induction false} RoundTrip(ts: seq<bytes>, gap: bytes)
    requires gap != [] && forall k :: 0 <= k < |gap| ==> IsSpace(gap[k])
    ensures Args(S.Join(ReprAll(ts), gap)) == Some(ts)
    decreases |ts|
  {
    hide Args, Repr;
    if ts == [] {
      G.ArgsOfNothing();
    } else {
      var rest := S.Join(ReprAll(ts[1..]), gap);
      RoundTrip(ts[1..], gap);
      assert ReprAll(ts)[1..] == ReprAll(ts[1..]);
      assert ts == [ts[0]] + ts[1..];
      if |ts| == 1 {
        ReprIsArgument(ts[0], []);
        G.ArgsOfNothing();
        assert Repr(ts[0]) + [] == Repr(ts[0]);
      } else {
        ReprIsArgument(ts[0], gap + rest);
        BlanksAreSkipped(gap, rest);
        ConcatAssoc(Repr(ts[0]), gap, rest);
      }
    }
  }

  const LOWER: string := "0123456789abcdef"

  /** A byte in printf's "\\x%02x". */
  function HexText(c: byte): bytes { ['\\' as int, 'x' as int, LOWER[c / 16] as int, LOWER[c % 16] as int] }

  lemma HexDigitIs(n: nat)
    requires n < 16
    ensures HexDigit(n) == LOWER[n] as int
  {
    assert LOWER[..10] == "0123456789" && LOWER[10..] == "abcdef";
    if n < 10 {
      assert LOWER[n] == LOWER[..10][n];
    } else {
      assert LOWER[n] == LOWER[10..][n - 10];
    }
  }

  /** How every byte is written: quote and backslash behind a backslash, five control characters
      as letters, the other printable ones plainly, and all else in hexadecimal. */
  lemma ByteIsWritten(c: byte)
    ensures ReprByte(c) ==
              if c == '"' as int || c == '\\' as int then ['\\' as int, c]
              else if c == 10 then ['\\' as int, 'n' as int]
              else if c == 13 then ['\\' as int, 'r' as int]
              else if c == 9 then ['\\' as int, 't' as int]
              else if c == 7 then ['\\' as int, 'a' as int]
              else if c == 8 then ['\\' as int, 'b' as int]
              else if ' ' as int <= c <= '~' as int then [c]
              else HexText(c)
  {
    HexDigitIs(c / 16);
    HexDigitIs(c % 16);
  }

  /** Printable text without quotes and backslashes is written as it is, between quotes. */
  lemma {:induction false} PlainTextIsPlain(s: bytes)
    requires forall k :: 0 <= k < |s| ==> 32 <= s[k] <= 126 && s[k] != '"' as int && s[k] != '\\' as int
    ensures ReprBytes(s) == s && Repr(s) == ['"' as int] + s + ['"' as int]
    decreases |s|
  {
    if s != [] {
      PlainTextIsPlain(s[1..]);
      assert s == [s[0]] + s[1..];
    }
  }

  /** What is written is printable, so it is a C string. */
  lemma {:induction false} ReprIsPrintable(s: bytes)
    ensures forall k :: 0 <= k < |Repr(s)| ==> IsPrintable(Repr(s)[k])
  {
    ReprBytesArePrintable(s);
  }

  lemma {:induction false} ReprBytesArePrintable(s: bytes)
    ensures forall k :: 0 <= k < |ReprBytes(s)| ==> IsPrintable(ReprBytes(s)[k])
  {
    if s != [] {
      ReprBytesArePrintable(s[1..]);
    }
  }

  /** So is the joined line: it can be handed to the splitter. */
  lemma {:induction false} JoinIsLine(ts: seq<bytes>, gap: bytes)
    requires forall k :: 0 <= k < |gap| ==> IsSpace(gap[k])
    ensures IsLine(S.Join(ReprAll(ts), gap) + [0])
    decreases |ts|
  {
    hide Repr;
    if ts != [] {
      JoinIsLine(ts[1..], gap);
      ReprIsPrintable(ts[0]);
      assert ReprAll(ts)[1..] == ReprAll(ts[1..]);
      NonZero(S.Join(ReprAll(ts[1..]), gap));
      NonZero(S.Join(ReprAll(ts), gap));
    }
  }

  lemma NonZero(s: bytes)
    ensures IsLine(s + [0]) <==> forall k :: 0 <= k < |s| ==> s[k] != 0
  {
    var line := s + [0];
    assert forall k :: 0 <= k < |s| ==> line[k] == s[k];
  }

  /** What is written so far, and what the rest will be. */
  ghost predicate Writing(s: Sds, rest: bytes, whole: bytes)
    reads s, s.buf
  {
    s.Valid() && s.View().content + (ReprBytes(rest) + [QUOTE]) == whole && Fits(|whole|)
  }

  /** Appends one byte, escaped. */
  method CatByte(s: Sds, c: byte)
    requires s.Valid() && Fits(s.Len() + |ReprByte(c)|)
    modifies s, s.buf
    ensures s.Valid() && (s.buf == old(s.buf) || fresh(s.buf))
    ensures s.View().content == old(s.View().content) + ReprByte(c)
  {
    hide Roomy;
    match c
    case 92 => s.CatLen([BACKSLASH, c]);
    case 34 => s.CatLen([BACKSLASH, c]);
    case 10 => s.CatLen([BACKSLASH, 110]);
    case 13 => s.CatLen([BACKSLASH, 114]);
    case 9 => s.CatLen([BACKSLASH, 116]);
    case 7 => s.CatLen([BACKSLASH, 97]);
    case 8 => s.CatLen([BACKSLASH, 98]);
    case _ =>
      if IsPrintable(c) {
        s.CatLen([c]);
      } else {
        s.CatLen([BACKSLASH, LETTER_X, HexDigit(c / 16), HexDigit(c % 16)]);
      }
  }

  method WritingTurn(s: Sds, p: bytes, ghost whole: bytes)
    requires p != [] && Writing(s, p, whole)
    modifies s, s.buf
    ensures (s.buf == old(s.buf) || fresh(s.buf)) && Writing(s, p[1..], whole)
  {
    hide ReprByte, Fits;
    ConcatAssoc(ReprByte(p[0]), ReprBytes(p[1..]), [QUOTE]);
    ConcatAssoc(s.View().content, ReprByte(p[0]), ReprBytes(p[1..]) + [QUOTE]);
    FitsBelow(s.Len() + |ReprByte(p[0])|, |whole|);
    CatByte(s, p[0]);
  }

  lemma FitsBelow(n: nat, m: nat)
    requires n <= m && Fits(m)
    ensures Fits(n)
  {
  }

  /** The loop of sdscatrepr. */
  method WriteBytes(s: Sds, p: bytes, ghost whole: bytes)
    requires Writing(s, p, whole)
    modifies s, s.buf
    ensures (s.buf == old(s.buf) || fresh(s.buf)) && Writing(s, [], whole)
  {
    hide *;
    var k := 0;
    assert p[0..] == p;
    while k < |p|
      invariant 0 <= k <= |p|
      invariant (s.buf == old(s.buf) || fresh(s.buf)) && Writing(s, p[k..], whole)
    {
      WritingTurn(s, p[k..], whole);
      assert p[k..][1..] == p[k + 1..];
      k := k + 1;
    }
    assert p[k..] == [];
  }

  /** sdscatrepr */
  method CatRepr(s: Sds, p: bytes)
    requires s.Valid() && Fits(s.Len() + |Repr(p)|)
    modifies s, s.buf
    ensures s.Valid() && (s.buf == old(s.buf) || fresh(s.buf))
    ensures s.View().content == old(s.View().content) + Repr(p)
  {
    hide Roomy;
    ghost var before := s.View().content;
    ghost var whole := before + Repr(p);
    assert whole == before + [QUOTE] + (ReprBytes(p) + [QUOTE]);
    s.CatLen([QUOTE]);
    WriteBytes(s, p, whole);
    assert ReprBytes([]) + [QUOTE] == [QUOTE];
    s.CatLen([QUOTE]);
  }
}
