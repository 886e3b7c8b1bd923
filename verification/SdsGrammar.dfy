/** What a line of arguments is, as a grammar: every line has a derivation, and the splitter
    gives the meaning of whichever derivation a line has. */
module SdsGrammar {
  import opened Bytes
  import opened SdsArgs

  /** One byte of a value, as it is written: in hexadecimal, behind a backslash, or plainly. */
  datatype Item = Hex(hi: byte, lo: byte) | Esc(c: byte) | Plain(c: byte)

  function Show(it: Item): bytes {
    match it
    case Hex(hi, lo) => [BACKSLASH, LETTER_X, hi, lo]
    case Esc(c) => [BACKSLASH, c]
    case Plain(c) => [c]
  }

  function Value(it: Item): byte {
    match it
    case Hex(hi, lo) => 16 * HexValue(hi) + HexValue(lo)
    case Esc(c) => Unescape(c)
    case Plain(c) => c
  }

  function Mark(mode: Mode): byte { if mode == InDouble then QUOTE else APOSTROPHE }

  /** Which items may stand where; `ahead` is what follows in the line. */
  predicate Fits(mode: Mode, it: Item, ahead: bytes) {
    match mode
    case Bare => it.Plain? && !EndsBare(it.c) && it.c != QUOTE && it.c != APOSTROPHE
    case InDouble =>
      (match it
       case Hex(hi, lo) => IsHex(hi) && IsHex(lo)
       case Esc(c) => c == LETTER_X ==> !(|ahead| >= 2 && IsHex(ahead[0]) && IsHex(ahead[1]))
       case Plain(c) => c != QUOTE && (c == BACKSLASH ==> ahead == []))
    case InSingle =>
      (match it
       case Hex(_, _) => false
       case Esc(c) => c == APOSTROPHE
       case Plain(c) => c != APOSTROPHE && (c == BACKSLASH ==> ahead == [] || ahead[0] != APOSTROPHE))
  }

  function ShowAll(items: seq<Item>): bytes {
    if items == [] then [] else Show(items[0]) + ShowAll(items[1..])
  }

  function Values(items: seq<Item>): (v: bytes)
    ensures |v| == |items|
  {
    if items == [] then [] else [Value(items[0])] + Values(items[1..])
  }

  predicate FitAll(mode: Mode, items: seq<Item>, tail: bytes) {
    items == [] || (Fits(mode, items[0], ShowAll(items[1..]) + tail) && FitAll(mode, items[1..], tail))
  }

  /** An argument: a bare word, or quotes behind a possibly empty bare part. */
  datatype Token = Word(bare: seq<Item>) | Quoted(bare: seq<Item>, mode: Mode, items: seq<Item>)

  function ShowToken(t: Token): bytes {
    match t
    case Word(bare) => ShowAll(bare)
    case Quoted(bare, mode, items) => ShowAll(bare) + ([Mark(mode)] + (ShowAll(items) + [Mark(mode)]))
  }

  function TokenValue(t: Token): bytes {
    match t
    case Word(bare) => Values(bare)
    case Quoted(bare, _, items) => Values(bare) + Values(items)
  }

  /** The bare part of an argument does not begin with a blank. */
  predicate BareFits(bare: seq<Item>) {
    FitAll(Bare, bare, []) && (bare != [] ==> !IsSpace(Value(bare[0])))
  }

  predicate TokenFits(t: Token, behind: bytes) {
    match t
    case Word(bare) => bare != [] && BareFits(bare) && (behind == [] || EndsBare(behind[0]))
    case Quoted(bare, mode, items) => QuotesFit(t, behind) && (behind == [] || IsSpace(behind[0]))
  }

  predicate QuotesFit(t: Token, behind: bytes)
    requires t.Quoted?
  {
    BareFits(t.bare) && t.mode != Bare && FitAll(t.mode, t.items, [Mark(t.mode)] + behind)
  }

  /** A line: blanks and arguments, or a fault behind some of them. A fault is a quote that is
      never closed, or closing quotes with something other than a space behind them. */
  datatype Line =
    | End
    | Blank(c: byte, rest: Line)
    | Arg(t: Token, rest: Line)
    | Unclosed(bare: seq<Item>, mode: Mode, items: seq<Item>)
    | Stuck(t: Token, tail: bytes)

  function ShowLine(line: Line): bytes {
    match line
    case End => []
    case Blank(c, rest) => [c] + ShowLine(rest)
    case Arg(t, rest) => ShowToken(t) + ShowLine(rest)
    case Unclosed(bare, mode, items) => ShowAll(bare) + ([Mark(mode)] + ShowAll(items))
    case Stuck(t, tail) => ShowToken(t) + tail
  }

  predicate LineFits(line: Line) {
    match line
    case End => true
    case Blank(c, rest) => IsSpace(c) && LineFits(rest)
    case Arg(t, rest) => TokenFits(t, ShowLine(rest)) && LineFits(rest)
    case Unclosed(bare, mode, items) => BareFits(bare) && mode != Bare && FitAll(mode, items, [])
    case Stuck(t, tail) => t.Quoted? && QuotesFit(t, tail) && tail != [] && !IsSpace(tail[0])
  }

  predicate Faulty(line: Line) {
    match line
    case End => false
    case Blank(_, rest) => Faulty(rest)
    case Arg(_, rest) => Faulty(rest)
    case Unclosed(_, _, _) => true
    case Stuck(_, _) => true
  }

  /** The values of the arguments. */
  function Meaning(line: Line): seq<bytes> {
    match line
    case End => []
    case Blank(_, rest) => Meaning(rest)
    case Arg(t, rest) => [TokenValue(t)] + Meaning(rest)
    case Unclosed(_, _, _) => []
    case Stuck(_, _) => []
  }

  /** The splitter reads an item as what it stands for. */
  lemma NextIsItem(mode: Mode, it: Item, ahead: bytes)
    requires Fits(mode, it, ahead)
    ensures Next(mode, Show(it) + ahead) == Go([Value(it)], mode, |Show(it)|)
  {
    var s := Show(it) + ahead;
    assert it.Esc? && |ahead| >= 2 ==> s[2] == ahead[0] && s[3] == ahead[1];
    assert it.Plain? && ahead != [] ==> s[1] == ahead[0];
  }

  lemma PrefixTwice(u: bytes, v: bytes, r: Scanned)
    ensures Prefix(u, Prefix(v, r)) == Prefix(u + v, r)
  {
    if r.Got? {
      ConcatAssoc(u, v, r.value);
    }
  }

  lemma {:induction false} ScanItems(mode: Mode, items: seq<Item>, tail: bytes)
    requires FitAll(mode, items, tail)
    ensures Scan(mode, ShowAll(items) + tail) == Prefix(Values(items), Scan(mode, tail))
    decreases |items|
  {
    var r := Scan(mode, tail);
    if items == [] {
      assert ShowAll(items) + tail == tail;
      assert r.Got? ==> [] + r.value == r.value;
    } else {
      var it, ahead := items[0], ShowAll(items[1..]) + tail;
      NextIsItem(mode, it, ahead);
      ConcatAssoc(Show(it), ShowAll(items[1..]), tail);
      assert (Show(it) + ahead)[|Show(it)|..] == ahead;
      ScanItems(mode, items[1..], tail);
      PrefixTwice([Value(it)], Values(items[1..]), r);
    }
  }

  /** What follows does not matter to a bare word. */
  lemma {:induction false} BareAnywhere(bare: seq<Item>, tail: bytes, tail': bytes)
    requires FitAll(Bare, bare, tail)
    ensures FitAll(Bare, bare, tail')
    decreases |bare|
  {
    if bare != [] {
      BareAnywhere(bare[1..], tail, tail');
    }
  }

  lemma ShowNothing()
    ensures ShowAll([]) == []
  {
  }

  lemma FirstOfBare(bare: seq<Item>, tail: bytes)
    requires bare != [] && FitAll(Bare, bare, tail)
    ensures ShowAll(bare) != [] && ShowAll(bare)[0] == Value(bare[0])
  {
  }

  lemma ScanClosing(mode: Mode, behind: bytes)
    requires mode != Bare
    ensures Scan(mode, [Mark(mode)] + behind)
         == if behind != [] && !IsSpace(behind[0]) then Failed else Got([], behind)
  {
    var close := [Mark(mode)] + behind;
    assert close[1..] == behind && (behind != [] ==> close[1] == behind[0]);
  }

  lemma ScanQuotes(t: Token, behind: bytes)
    requires t.Quoted? && QuotesFit(t, behind)
    ensures Scan(Bare, ShowToken(t) + behind)
         == if behind != [] && !IsSpace(behind[0]) then Failed else Got(TokenValue(t), behind)
  {
    hide Scan, FitAll, ShowAll, Values, Mark;
    var mark := [Mark(t.mode)];
    ScanOpen(t.bare, t.mode, t.items, mark + behind);
    ScanClosing(t.mode, behind);
    assert ShowToken(t) + behind == ShowAll(t.bare) + (mark + (ShowAll(t.items) + (mark + behind)));
    assert TokenValue(t) + [] == TokenValue(t);
  }

  /** The scan gets into the quotes. */
  lemma ScanOpen(bare: seq<Item>, mode: Mode, items: seq<Item>, close: bytes)
    requires BareFits(bare) && mode != Bare && FitAll(mode, items, close)
    ensures Scan(Bare, ShowAll(bare) + ([Mark(mode)] + (ShowAll(items) + close)))
         == Prefix(Values(bare) + Values(items), Scan(mode, close))
  {
    var inside := ShowAll(items) + close;
    var open := [Mark(mode)] + inside;
    BareAnywhere(bare, [], open);
    ScanItems(Bare, bare, open);
    ScanItems(mode, items, close);
    assert open[1..] == inside;
    assert Scan(Bare, open) == Prefix([], Scan(mode, inside));
    PrefixTwice([], Values(items), Scan(mode, close));
    assert [] + Values(items) == Values(items);
    PrefixTwice(Values(bare), Values(items), Scan(mode, close));
  }

  lemma ScanWord(bare: seq<Item>, behind: bytes)
    requires bare != [] && BareFits(bare) && (behind == [] || EndsBare(behind[0]))
    ensures Scan(Bare, ShowAll(bare) + behind) == Got(Values(bare), if behind == [] then [] else behind[1..])
  {
    BareAnywhere(bare, [], behind);
    ScanItems(Bare, bare, behind);
    assert Values(bare) + [] == Values(bare);
  }

  lemma BlankIsSkipped(s: bytes)
    requires s != [] && IsSpace(s[0])
    ensures Args(s) == Args(s[1..])
  {
  }

  /** An argument begins where the blanks end. */
  lemma StartsToken(bare: seq<Item>, more: bytes)
    requires BareFits(bare) && (bare == [] ==> more != [] && !IsSpace(more[0]))
    ensures var s := ShowAll(bare) + more; s != [] && SkipBlanks(s) == s
  {
    if bare != [] {
      FirstOfBare(bare, []);
    }
  }

  lemma ArgsOfToken(t: Token, behind: bytes)
    requires TokenFits(t, behind)
    ensures Args(ShowToken(t) + behind) == Behind([TokenValue(t)], Args(behind))
  {
    hide Scan, FitAll, ShowAll, Values, Mark;
    var s := ShowToken(t) + behind;
    match t
    case Word(bare) =>
      ScanWord(bare, behind);
      StartsToken(bare, behind);
      if behind != [] {
        BlankIsSkipped(behind);
      }
    case Quoted(bare, mode, items) =>
      ScanQuotes(t, behind);
      QuotesStart(t, behind);
  }

  lemma QuotesStart(t: Token, behind: bytes)
    requires t.Quoted? && QuotesFit(t, behind)
    ensures var s := ShowToken(t) + behind; s != [] && SkipBlanks(s) == s
  {
    var more := [Mark(t.mode)] + (ShowAll(t.items) + [Mark(t.mode)]);
    StartsToken(t.bare, more + behind);
    ConcatAssoc(ShowAll(t.bare), more, behind);
  }

  lemma ArgsOfUnclosed(bare: seq<Item>, mode: Mode, items: seq<Item>)
    requires BareFits(bare) && mode != Bare && FitAll(mode, items, [])
    ensures Args(ShowAll(bare) + ([Mark(mode)] + ShowAll(items))) == None
  {
    ScanOpen(bare, mode, items, []);
    assert ShowAll(items) + [] == ShowAll(items);
    StartsToken(bare, [Mark(mode)] + ShowAll(items));
  }

  lemma ArgsOfStuck(t: Token, tail: bytes)
    requires t.Quoted? && QuotesFit(t, tail) && tail != [] && !IsSpace(tail[0])
    ensures Args(ShowToken(t) + tail) == None
  {
    ScanQuotes(t, tail);
    QuotesStart(t, tail);
  }

  /** The splitter gives the meaning of any derivation of the line, and NULL for a faulty one. */
  lemma {:induction false} LineMeans(line: Line)
    requires LineFits(line)
    ensures Args(ShowLine(line)) == if Faulty(line) then None else Some(Meaning(line))
  {
    hide Args, Scan, FitAll, ShowAll, Values, Mark, ShowToken, TokenFits, QuotesFit;
    match line
    case End => ArgsOfNothing();
    case Blank(c, rest) =>
      LineMeans(rest);
      assert ShowLine(line)[1..] == ShowLine(rest);
      BlankIsSkipped(ShowLine(line));
    case Arg(t, rest) =>
      LineMeans(rest);
      ArgsOfToken(t, ShowLine(rest));
    case Unclosed(bare, mode, items) => ArgsOfUnclosed(bare, mode, items);
    case Stuck(t, tail) => ArgsOfStuck(t, tail);
  }

  lemma ArgsOfNothing()
    ensures Args([]) == Some([])
  {
  }

  predicate Stops(mode: Mode, tail: bytes) {
    tail == [] ||
    if mode == Bare then EndsBare(tail[0]) || tail[0] == QUOTE || tail[0] == APOSTROPHE
    else tail[0] == Mark(mode)
  }

  /** The item that stands first. */
  ghost function ItemAt(mode: Mode, s: bytes): (it: Item)
    requires s != [] && !Stops(mode, s)
    ensures |Show(it)| <= |s| && s[..|Show(it)|] == Show(it)
    ensures Fits(mode, it, s[|Show(it)|..])
  {
    if mode == InDouble && HexEscape(s) then Hex(s[2], s[3])
    else if s[0] == BACKSLASH && |s| > 1 && (mode == InDouble || (mode == InSingle && s[1] == APOSTROPHE)) then Esc(s[1])
    else Plain(s[0])
  }

  lemma {:induction false} TakeItems(mode: Mode, s: bytes) returns (items: seq<Item>, tail: bytes)
    ensures s == ShowAll(items) + tail && FitAll(mode, items, tail) && Stops(mode, tail)
    decreases |s|
  {
    if s == [] || Stops(mode, s) {
      items, tail := [], s;
    } else {
      var it := ItemAt(mode, s);
      var ahead := s[|Show(it)|..];
      var more;
      more, tail := TakeItems(mode, ahead);
      items := [it] + more;
      assert items[1..] == more;
      assert s == Show(it) + ahead;
      ConcatAssoc(Show(it), ShowAll(more), tail);
    }
  }

  /** Every line has a derivation, faulty or not. */
  lemma {:induction false} EveryLineFits(s: bytes) returns (line: Line)
    ensures LineFits(line) && ShowLine(line) == s
    decreases |s|
  {
    hide FitAll, ShowAll, ItemAt;
    if s == [] {
      return End;
    }
    if IsSpace(s[0]) {
      var rest := EveryLineFits(s[1..]);
      return Blank(s[0], rest);
    }
    var bare, tail := TakeItems(Bare, s);
    BareAnywhere(bare, tail, []);
    if bare != [] {
      FirstOfBare(bare, []);
    } else {
      ShowNothing();
    }
    if tail == [] || EndsBare(tail[0]) {
      var rest := EveryLineFits(tail);
      return Arg(Word(bare), rest);
    }
    var mode := if tail[0] == QUOTE then InDouble else InSingle;
    var items, close := TakeItems(mode, tail[1..]);
    assert tail == [Mark(mode)] + tail[1..];
    if close == [] {
      return Unclosed(bare, mode, items);
    }
    var t, behind := Quoted(bare, mode, items), close[1..];
    assert close == [Mark(mode)] + behind;
    assert s == ShowToken(t) + behind;
    if behind != [] && !IsSpace(behind[0]) {
      return Stuck(t, behind);
    }
    var rest := EveryLineFits(behind);
    return Arg(t, rest);
  }

  /** The line has a derivation without a fault, and these are its arguments. */
  ghost predicate Derives(s: bytes, vs: seq<bytes>) {
    exists line :: LineFits(line) && ShowLine(line) == s && !Faulty(line) && Meaning(line) == vs
  }

  /** The line has a derivation with a fault. */
  ghost predicate HasFault(s: bytes) {
    exists line :: LineFits(line) && ShowLine(line) == s && Faulty(line)
  }

  /** The splitter agrees with the grammar: it gives exactly the arguments the grammar gives,
      and NULL exactly for a quote left open or closing quotes followed by a non-space. */
  lemma SplitterAgrees(s: bytes, vs: seq<bytes>)
    ensures Args(s) == Some(vs) <==> Derives(s, vs)
    ensures Args(s) == None <==> HasFault(s)
  {
    hide Args, LineFits, ShowLine, Faulty, Meaning;
    forall line | LineFits(line) && ShowLine(line) == s
      ensures Args(s) == if Faulty(line) then None else Some(Meaning(line))
    {
      LineMeans(line);
    }
    var line := EveryLineFits(s);
  }
}
