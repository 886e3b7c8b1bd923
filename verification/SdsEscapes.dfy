/** What single bytes and escapes mean in a line of arguments, byte by byte and in literal
    characters. */
module SdsEscapes {
  import opened Bytes
  import opened SdsArgs
  import G = SdsGrammar

  const LOWER: string := "0123456789abcdef"
  const UPPER: string := "0123456789ABCDEF"

  function DoubleQuoted(s: bytes): bytes { ['"' as int] + s + ['"' as int] }
  function SingleQuoted(s: bytes): bytes { ['\'' as int] + s + ['\'' as int] }

  /** Two items, or one, in quotes are one argument. */
  lemma QuotesHold(mode: Mode, items: seq<G.Item>)
    requires mode != Bare && G.FitAll(mode, items, [G.Mark(mode)])
    ensures Args([G.Mark(mode)] + G.ShowAll(items) + [G.Mark(mode)]) == Some([G.Values(items)])
  {
    var t := G.Quoted([], mode, items);
    var line := [G.Mark(mode)] + G.ShowAll(items) + [G.Mark(mode)];
    assert [G.Mark(mode)] + [] == [G.Mark(mode)];
    assert G.ShowToken(t) + [] == line;
    assert [] + G.Values(items) == G.Values(items);
    EmptyFits();
    hide G.FitAll, G.ShowAll, G.Values, Args, G.Mark;
    assert G.BareFits([]);
    G.ArgsOfToken(t, []);
    G.ArgsOfNothing();
    assert [G.TokenValue(t)] + [] == [G.TokenValue(t)];
  }

  lemma EmptyFits()
    ensures G.FitAll(Bare, [], [])
  {
  }

  lemma OneItem(mode: Mode, it: G.Item)
    requires mode != Bare && G.Fits(mode, it, [G.Mark(mode)])
    ensures Args([G.Mark(mode)] + G.Show(it) + [G.Mark(mode)]) == Some([[G.Value(it)]])
  {
    assert [it][1..] == [];
    assert [] + [G.Mark(mode)] == [G.Mark(mode)];
    assert G.ShowAll([it]) == G.Show(it) + [] == G.Show(it);
    assert G.Values([it]) == [G.Value(it)] + [] == [G.Value(it)];
    QuotesHold(mode, [it]);
  }

  lemma DigitIs(n: nat)
    requires n < 16
    ensures IsHex(LOWER[n] as int) && HexValue(LOWER[n] as int) == n
    ensures IsHex(UPPER[n] as int) && HexValue(UPPER[n] as int) == n
  {
    assert LOWER[..10] == UPPER[..10] == "0123456789" && LOWER[10..] == "abcdef" && UPPER[10..] == "ABCDEF";
    if n < 10 {
      assert LOWER[n] == LOWER[..10][n] && UPPER[n] == UPPER[..10][n];
    } else {
      assert LOWER[n] == LOWER[10..][n - 10] && UPPER[n] == UPPER[10..][n - 10];
    }
  }

  /** A digit of either kind for n. */
  ghost predicate IsDigitFor(c: byte, n: nat) {
    n < 16 && (c == LOWER[n] as int || c == UPPER[n] as int)
  }

  /** "\xhl" in double quotes is the byte 16 * h + l, whatever the case of the digits. */
  lemma HexEscapeIs(h: byte, i: nat, l: byte, j: nat)
    requires IsDigitFor(h, i) && IsDigitFor(l, j)
    ensures Args(DoubleQuoted(['\\' as int, 'x' as int, h, l])) == Some([[16 * i + j]])
  {
    DigitIs(i);
    DigitIs(j);
    OneItem(InDouble, G.Hex(h, l));
  }

  lemma DigitOf(c: byte) returns (n: nat)
    requires IsHex(c)
    ensures IsDigitFor(c, n)
  {
    n := HexValue(c);
    assert LOWER[..10] == "0123456789" && LOWER[10..] == "abcdef" && UPPER[10..] == "ABCDEF";
    if n < 10 {
      assert LOWER[n] == LOWER[..10][n];
    } else {
      assert LOWER[n] == LOWER[10..][n - 10] && UPPER[n] == UPPER[10..][n - 10];
    }
  }

  /** Without two such digits behind it the x stands for itself. */
  lemma NoHexEscape(h: byte, l: byte)
    requires !(exists i, j :: IsDigitFor(h, i) && IsDigitFor(l, j))
    requires h != '"' as int && h != '\\' as int && l != '"' as int && l != '\\' as int
    ensures Args(DoubleQuoted(['\\' as int, 'x' as int, h, l])) == Some([['x' as int, h, l]])
  {
    if IsHex(h) && IsHex(l) {
      var i := DigitOf(h);
      var j := DigitOf(l);
    }
    var x, a, b := G.Esc('x' as int), G.Plain(h), G.Plain(l);
    var items := [x, a, b];
    assert items[1..] == [a, b] && [a, b][1..] == [b] && [b][1..] == [];
    assert G.ShowAll([b]) == [l] && G.ShowAll([a, b]) == [h, l];
    assert G.ShowAll(items) == ['\\' as int, 'x' as int, h, l];
    assert G.Values([b]) == [l] && G.Values([a, b]) == [h, l];
    assert G.Values(items) == ['x' as int, h, l];
    var tail: bytes := ['"' as int];
    assert G.FitAll(InDouble, [b], tail) && G.FitAll(InDouble, [a, b], tail);
    assert ([h, l] + tail)[0] == h && ([h, l] + tail)[1] == l;
    QuotesHold(InDouble, items);
  }

  /** A backslash and one byte in double quotes: five letters stand for control characters, any
      other byte for itself. */
  lemma EscapeIs(c: byte)
    ensures Args(DoubleQuoted(['\\' as int, c]))
         == Some([[if c == 'n' as int then 10 else if c == 'r' as int then 13 else if c == 't' as int then 9
                   else if c == 'b' as int then 8 else if c == 'a' as int then 7 else c]])
  {
    OneItem(InDouble, G.Esc(c));
  }

  /** In double quotes every byte but quote and backslash stands for itself. */
  lemma PlainInDouble(c: byte)
    requires c != '"' as int && c != '\\' as int
    ensures Args(DoubleQuoted([c])) == Some([[c]])
  {
    OneItem(InDouble, G.Plain(c));
  }

  /** In single quotes a backslash escapes the apostrophe only; every other byte stands for itself. */
  lemma InSingleQuotes(c: byte)
    ensures c != '\'' as int && c != '\\' as int ==> Args(SingleQuoted([c])) == Some([[c]])
    ensures Args(SingleQuoted(['\\' as int, '\'' as int])) == Some([['\'' as int]])
    ensures c != '\'' as int && c != '\\' as int ==> Args(SingleQuoted(['\\' as int, c])) == Some([['\\' as int, c]])
  {
    OneItem(InSingle, G.Esc('\'' as int));
    if c != '\'' as int && c != '\\' as int {
      OneItem(InSingle, G.Plain(c));
      var a, b := G.Plain('\\' as int), G.Plain(c);
      var items := [a, b];
      assert items[1..] == [b] && [b][1..] == [];
      assert G.ShowAll([b]) == [c] && G.ShowAll(items) == ['\\' as int, c];
      assert G.Values([b]) == [c] && G.Values(items) == ['\\' as int, c];
      var tail: bytes := ['\'' as int];
      assert G.FitAll(InSingle, [b], tail) && ([c] + tail)[0] == c;
      QuotesHold(InSingle, items);
    }
  }

  /** Blank, tab, newline, vertical tab, form feed and carriage return are skipped. */
  ghost predicate Skipped(c: byte) { c == ' ' as int || c in {9, 10, 11, 12, 13} }

  /** An argument outside quotes ends at blank, tab, newline and carriage return, and quotes
      begin at a quote or an apostrophe. */
  ghost predicate InWord(c: byte) {
    c != ' ' as int && c !in {9, 10, 13} && c != '"' as int && c != '\'' as int
  }

  ghost predicate IsWord(w: bytes) {
    w != [] && !Skipped(w[0]) && forall k :: 0 <= k < |w| ==> InWord(w[k])
  }

  lemma {:induction false} WordItems(w: bytes, tail: bytes) returns (items: seq<G.Item>)
    requires forall k :: 0 <= k < |w| ==> InWord(w[k])
    ensures G.ShowAll(items) == w && G.Values(items) == w && G.FitAll(Bare, items, tail) && |items| == |w|
    ensures forall k :: 0 <= k < |w| ==> items[k] == G.Plain(w[k])
    decreases |w|
  {
    items := [];
    if w != [] {
      var rest := WordItems(w[1..], tail);
      items := [G.Plain(w[0])] + rest;
      assert items[1..] == rest && w == [w[0]] + w[1..];
    }
  }

  /** A word is an argument, and what ends it is skipped. */
  lemma WordIsArgument(w: bytes, rest: bytes)
    requires IsWord(w)
    requires rest == [] || rest[0] == ' ' as int || rest[0] in {9, 10, 13}
    ensures Args(w + rest) == match Args(rest) case None => None case Some(vs) => Some([w] + vs)
  {
    var items := WordItems(w, []);
    hide G.FitAll, G.ShowAll, G.Values, Args;
    G.ArgsOfToken(G.Word(items), rest);
  }

  /** In front of an argument exactly these bytes are skipped. */
  lemma FrontIsSkipped(c: byte, rest: bytes)
    ensures SkipBlanks([c] + rest) == if Skipped(c) then SkipBlanks(rest) else [c] + rest
    ensures Skipped(c) ==> Args([c] + rest) == Args(rest)
  {
    assert ([c] + rest)[1..] == rest;
    if Skipped(c) {
      G.BlankIsSkipped([c] + rest);
    }
  }

  /** Behind a closing quote exactly these bytes may follow. */
  lemma BehindQuotes(c: byte, rest: bytes)
    ensures Skipped(c) ==>
              Args(DoubleQuoted([]) + [c] + rest) == match Args(rest) case None => None case Some(vs) => Some([[]] + vs)
    ensures !Skipped(c) ==> Args(DoubleQuoted([]) + [c] + rest) == None
  {
    var t := G.Quoted([], InDouble, []);
    assert G.ShowAll([]) == [] && G.ShowToken(t) == DoubleQuoted([]) && G.TokenValue(t) == [];
    assert DoubleQuoted([]) + [c] + rest == DoubleQuoted([]) + ([c] + rest);
    EmptyFits();
    assert G.QuotesFit(t, [c] + rest);
    FrontIsSkipped(c, rest);
    hide Args;
    if Skipped(c) {
      G.ArgsOfToken(t, [c] + rest);
    } else {
      G.ArgsOfStuck(t, [c] + rest);
    }
  }
}
