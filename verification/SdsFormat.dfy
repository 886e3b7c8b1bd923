/** Formatted appends: a small printf that writes into the free space of the string. */
module SdsFormat {
  import opened Bytes
  import opened SdsHeader
  import opened Sds
  import opened SdsNumber

  const PERCENT: byte := 37

  /** A variadic argument: text of either kind, or an integer of any width. */
  datatype Arg = Text(text: bytes) | Whole(value: int)

  datatype Spec = CText | SdsText | Int | LongInt | Unsigned | LongUnsigned | Verbatim

  /** The specifier a character behind a percent sign stands for. */
  function SpecOf(c: byte): Spec {
    if c == 115 then CText
    else if c == 83 then SdsText
    else if c == 105 then Int
    else if c == 73 then LongInt
    else if c == 117 then Unsigned
    else if c == 85 then LongUnsigned
    else Verbatim
  }

  /** The argument is of the C type that the specifier names. */
  predicate TypeMatches(spec: Spec, a: Arg) {
    match spec
    case CText => a.Text? && 0 !in a.text
    case SdsText => a.Text?
    case Int => a.Whole? && -TWO_31 <= a.value < TWO_31
    case LongInt => a.Whole? && MIN_LL <= a.value < TWO_63
    case Unsigned => a.Whole? && 0 <= a.value < TWO_32
    case LongUnsigned => a.Whole? && 0 <= a.value < TWO_64
    case Verbatim => false
  }

  function Shown(a: Arg): bytes {
    match a
    case Text(text) => text
    case Whole(value) => Decimal(value)
  }

  /** Each specifier has an argument of its type; there may be more arguments. */
  predicate ArgsMatch(fmt: bytes, args: seq<Arg>)
    decreases |fmt|
  {
    if fmt == [] || fmt == [PERCENT] then true
    else if fmt[0] != PERCENT then ArgsMatch(fmt[1..], args)
    else if SpecOf(fmt[1]) == Verbatim then ArgsMatch(fmt[2..], args)
    else args != [] && TypeMatches(SpecOf(fmt[1]), args[0]) && ArgsMatch(fmt[2..], args[1..])
  }

  /** What a format says. */
  function Format(fmt: bytes, args: seq<Arg>): bytes
    requires ArgsMatch(fmt, args)
    decreases |fmt|
  {
    if fmt == [] || fmt == [PERCENT] then []
    else if fmt[0] != PERCENT then [fmt[0]] + Format(fmt[1..], args)
    else if SpecOf(fmt[1]) == Verbatim then [fmt[1]] + Format(fmt[2..], args)
    else Shown(args[0]) + Format(fmt[2..], args[1..])
  }

  /** What a format is made of: literal characters, characters behind a percent sign that are
      no specifiers, and specifiers with their arguments. */
  datatype Piece = Literal(c: byte) | Marked(c: byte) | Slot(c: byte, arg: Arg)

  predicate PieceFits(p: Piece) {
    match p
    case Literal(c) => c != PERCENT
    case Marked(c) => SpecOf(c) == Verbatim
    case Slot(c, arg) => SpecOf(c) != Verbatim && TypeMatches(SpecOf(c), arg)
  }

  predicate AllFit(ps: seq<Piece>) { forall k :: 0 <= k < |ps| ==> PieceFits(ps[k]) }

  /** The pieces as a format, ended by a lone percent sign or not. */
  function Written(ps: seq<Piece>, lone: bool): bytes {
    if ps == [] then (if lone then [PERCENT] else [])
    else (if ps[0].Literal? then [ps[0].c] else [PERCENT, ps[0].c]) + Written(ps[1..], lone)
  }

  /** The arguments they take, in front of the ones that are left over. */
  function Taken(ps: seq<Piece>, left: seq<Arg>): seq<Arg> {
    if ps == [] then left
    else (if ps[0].Slot? then [ps[0].arg] else []) + Taken(ps[1..], left)
  }

  function Said(p: Piece): bytes { if p.Slot? then Shown(p.arg) else [p.c] }

  function SaidAll(ps: seq<Piece>): bytes { if ps == [] then [] else Said(ps[0]) + SaidAll(ps[1..]) }

  /** A format says what its pieces say: a literal and an unknown specifier their character, a
      specifier its argument, a lone percent sign at the end nothing. */
  lemma {:induction false} FormatSays(ps: seq<Piece>, lone: bool, left: seq<Arg>)
    requires AllFit(ps)
    ensures ArgsMatch(Written(ps, lone), Taken(ps, left))
    ensures Format(Written(ps, lone), Taken(ps, left)) == SaidAll(ps)
    decreases |ps|
  {
    hide SpecOf, TypeMatches, Shown;
    if ps != [] {
      FormatSays(ps[1..], lone, left);
      var f, args := Written(ps, lone), Taken(ps, left);
      assert PieceFits(ps[0]);
      assert f[if ps[0].Literal? then 1 else 2..] == Written(ps[1..], lone);
      assert args[if ps[0].Slot? then 1 else 0..] == Taken(ps[1..], left);
    }
  }

  /** Every format with matching arguments is made of such pieces. */
  lemma {:induction false} EveryFormatHasPieces(fmt: bytes, args: seq<Arg>)
    returns (ps: seq<Piece>, lone: bool, left: seq<Arg>)
    requires ArgsMatch(fmt, args)
    ensures AllFit(ps) && Written(ps, lone) == fmt && Taken(ps, left) == args
    decreases |fmt|
  {
    hide SpecOf, TypeMatches;
    if fmt == [] || fmt == [PERCENT] {
      return [], fmt != [], args;
    }
    var first, rest;
    if fmt[0] != PERCENT {
      first := Literal(fmt[0]);
      rest, lone, left := EveryFormatHasPieces(fmt[1..], args);
    } else if SpecOf(fmt[1]) == Verbatim {
      first := Marked(fmt[1]);
      rest, lone, left := EveryFormatHasPieces(fmt[2..], args);
    } else {
      first := Slot(fmt[1], args[0]);
      rest, lone, left := EveryFormatHasPieces(fmt[2..], args[1..]);
    }
    ps := [first] + rest;
    assert ps[1..] == rest;
  }

  /** A percent sign, a character, and the rest of a format. */
  function Specified(c: char, rest: bytes): bytes
    requires c < 256 as char
  {
    ['%' as int, c as int] + rest
  }

  lemma SpecifiedParts(c: char, rest: bytes)
    requires c < 256 as char
    ensures var f := Specified(c, rest); |f| >= 2 && f[0] == PERCENT && f[1] == c as int && f[2..] == rest
  {
  }

  lemma TakenParts(a: Arg, args: seq<Arg>)
    ensures ([a] + args)[0] == a && ([a] + args)[1..] == args
  {
  }

  /** "%s" appends a C string, "%S" any bytes, and then what the rest of the format says. */
  lemma TextIsAppended(text: bytes, rest: bytes, args: seq<Arg>)
    requires ArgsMatch(rest, args)
    ensures var f, all := Specified('s', rest), [Text(text)] + args;
            && (ArgsMatch(f, all) <==> 0 !in text)
            && (0 !in text ==> Format(f, all) == text + Format(rest, args))
    ensures var f, all := Specified('S', rest), [Text(text)] + args;
            ArgsMatch(f, all) && Format(f, all) == text + Format(rest, args)
  {
    SpecifiedParts('s', rest);
    SpecifiedParts('S', rest);
    TakenParts(Text(text), args);
    hide Specified;
  }

  /** "%i" and "%I", "%u" and "%U" append the numeral of an integer of their C type. */
  lemma NumeralIsAppended(c: char, value: int, rest: bytes, args: seq<Arg>) returns (numeral: bytes)
    requires c in {'i', 'I', 'u', 'U'} && ArgsMatch(rest, args)
    ensures IsDecimal(numeral, value)
    ensures var f, all := Specified(c, rest), [Whole(value)] + args;
            && (ArgsMatch(f, all) <==>
                  match c
                  case 'i' => -0x8000_0000 <= value < 0x8000_0000
                  case 'I' => -0x8000_0000_0000_0000 <= value < 0x8000_0000_0000_0000
                  case 'u' => 0 <= value < 0x1_0000_0000
                  case _ => 0 <= value < 0x1_0000_0000_0000_0000)
            && (ArgsMatch(f, all) ==> Format(f, all) == numeral + Format(rest, args))
  {
    numeral := Decimal(value);
    DecimalIsTheNumeral(numeral, value);
    SpecifiedParts(c, rest);
    TakenParts(Whole(value), args);
    hide Specified, Decimal, IsDecimal;
  }

  /** A percent sign in front of any other character appends that character and takes no
      argument; so does a character without one. */
  lemma CharacterIsAppended(c: char, rest: bytes, args: seq<Arg>)
    requires c < 256 as char && ArgsMatch(rest, args)
    ensures c !in {'s', 'S', 'i', 'I', 'u', 'U'} ==>
              var f := Specified(c, rest);
              ArgsMatch(f, args) && Format(f, args) == [c as int] + Format(rest, args)
    ensures c != '%' ==>
              var f: bytes := [c as int] + rest;
              ArgsMatch(f, args) && Format(f, args) == [c as int] + Format(rest, args)
  {
    SpecifiedParts(c, rest);
    var f: bytes := [c as int] + rest;
    assert f[0] == c as int && f[1..] == rest;
    hide Specified;
  }

  /** The end of a format, and a percent sign there, append nothing. */
  lemma NothingIsAppended(args: seq<Arg>)
    ensures ArgsMatch([], args) && Format([], args) == []
    ensures ArgsMatch(['%' as int], args) && Format(['%' as int], args) == []
  {
  }

  /** Text with each percent sign doubled. */
  function Escaped(text: bytes): bytes {
    if text == [] then []
    else (if text[0] == PERCENT then [PERCENT, PERCENT] else [text[0]]) + Escaped(text[1..])
  }

  /** Escaped text comes out as it was, whatever arguments there are, and so does a lone
      percent sign behind it: as nothing. */
  lemma {:induction false} EscapedIsVerbatim(text: bytes, args: seq<Arg>)
    ensures var e := Escaped(text); ArgsMatch(e, args) && Format(e, args) == text
    ensures var e := Escaped(text) + [PERCENT]; ArgsMatch(e, args) && Format(e, args) == text
    decreases |text|
  {
    hide TypeMatches, Shown;
    if text == [] {
      assert Escaped(text) + [PERCENT] == [PERCENT];
    } else {
      EscapedIsVerbatim(text[1..], args);
      var e := Escaped(text);
      var n := if text[0] == PERCENT then 2 else 1;
      assert e[n..] == Escaped(text[1..]);
      assert (e + [PERCENT])[n..] == Escaped(text[1..]) + [PERCENT];
      assert text == [text[0]] + text[1..];
    }
  }

  /** The string ends at i and holds `content`; the terminator is left for later. */
  ghost predicate Holds(s: Sds, i: nat, content: bytes)
    reads s, s.buf
  {
    s.Framed() && i == s.Len() && s.View().content == content
  }

  /** Makes sure that n more bytes fit. */
  method MakeSure(s: Sds, i: nat, n: nat, ghost content: bytes)
    requires Holds(s, i, content) && s.Type() != K5 && Fits(i + n)
    modifies s
    ensures Holds(s, i, content) && s.Type() != K5 && s.Avail() >= n
    ensures s.buf == old(s.buf) || fresh(s.buf)
  {
    hide LenIn, AllocIn, TypeOf, Modulus, GrownSize, ReqType;
    if s.Avail() < n {
      s.MakeRoomFor(n);
    }
  }

  /** Writes `t` at i, where there is room for it. */
  method WriteAt(s: Sds, i: nat, t: bytes, ghost content: bytes) returns (next: nat)
    requires Holds(s, i, content) && s.Type() != K5 && s.Avail() >= |t|
    modifies s`header, s.buf
    ensures Holds(s, next, content + t) && s.Type() != K5 && s.buf == old(s.buf)
  {
    hide LenIn, AllocIn, TypeOf, Modulus;
    next := CopyInto(s.buf, i, t);
    s.IncLen(|t|);
  }

  /** An argument as text. */
  method TextOf(spec: Spec, a: Arg) returns (str: bytes)
    requires TypeMatches(spec, a)
    ensures str == Shown(a)
  {
    if spec == CText || spec == SdsText {
      return a.text;
    }
    var buf := new byte[LLSTR_SIZE];
    var l: nat;
    if spec == Int || spec == LongInt {
      l := Ll2Str(buf, a.value);
    } else {
      l := Ull2Str(buf, a.value);
    }
    return buf[..l];
  }

  method WriteArg(s: Sds, i: nat, spec: Spec, a: Arg, ghost content: bytes) returns (next: nat)
    requires Holds(s, i, content) && s.Type() != K5 && TypeMatches(spec, a) && Fits(i + |Shown(a)|)
    modifies s, s.buf
    ensures Holds(s, next, content + Shown(a)) && s.Type() != K5 && (s.buf == old(s.buf) || fresh(s.buf))
  {
    hide *;
    var str := TextOf(spec, a);
    MakeSure(s, i, |str|, content);
    next := WriteAt(s, i, str, content);
  }

  /** What was written and what is still to be written make up the whole; there is always
      room to say so, and one character more. */
  ghost predicate ToWrite(content: bytes, fmt: bytes, args: seq<Arg>, whole: bytes) {
    ArgsMatch(fmt, args) && content + Format(fmt, args) == whole && Fits(|whole| + 1)
  }

  ghost predicate Writing(s: Sds, i: nat, fmt: bytes, args: seq<Arg>, whole: bytes)
    reads s, s.buf
  {
    && s.Framed() && i == s.Len() && (fmt != [] ==> s.Type() != K5)
    && ToWrite(s.View().content, fmt, args, whole)
  }

  lemma LiteralStep(content: bytes, fmt: bytes, args: seq<Arg>, whole: bytes)
    requires ToWrite(content, fmt, args, whole) && fmt != []
    ensures Fits(|content| + 1)
    ensures fmt[0] != PERCENT ==> ToWrite(content + [fmt[0]], fmt[1..], args, whole)
    ensures fmt == [PERCENT] ==> ToWrite(content, fmt[1..], args, whole)
  {
    if fmt[0] != PERCENT {
      ConcatAssoc(content, [fmt[0]], Format(fmt[1..], args));
    }
  }

  lemma MarkedStep(content: bytes, fmt: bytes, args: seq<Arg>, whole: bytes)
    requires ToWrite(content, fmt, args, whole) && |fmt| > 1 && fmt[0] == PERCENT
    ensures SpecOf(fmt[1]) == Verbatim ==> ToWrite(content + [fmt[1]], fmt[2..], args, whole)
    ensures SpecOf(fmt[1]) != Verbatim ==>
              args != [] && TypeMatches(SpecOf(fmt[1]), args[0]) && Fits(|content| + |Shown(args[0])|)
              && ToWrite(content + Shown(args[0]), fmt[2..], args[1..], whole)
  {
    hide SpecOf, TypeMatches, Shown;
    if SpecOf(fmt[1]) == Verbatim {
      ConcatAssoc(content, [fmt[1]], Format(fmt[2..], args));
    } else {
      ConcatAssoc(content, Shown(args[0]), Format(fmt[2..], args[1..]));
    }
  }

  lemma WritingHolds(s: Sds, i: nat, fmt: bytes, args: seq<Arg>, whole: bytes)
    requires Writing(s, i, fmt, args, whole)
    ensures Holds(s, i, s.View().content) && |s.View().content| == i && (fmt != [] ==> s.Type() != K5)
    ensures s.Avail() >= 0
    ensures ToWrite(s.View().content, fmt, args, whole)
  {
    s.ViewIsOk();
  }

  lemma HoldsWriting(s: Sds, i: nat, content: bytes, fmt: bytes, args: seq<Arg>, whole: bytes)
    requires Holds(s, i, content) && s.Type() != K5 && ToWrite(content, fmt, args, whole)
    ensures Writing(s, i, fmt, args, whole)
  {
  }

  /** One turn of the loop: the number of format characters and arguments it used up. */
  method Turn(s: Sds, i: nat, fmt: bytes, args: seq<Arg>, ghost whole: bytes)
      returns (next: nat, used: nat, taken: nat)
    requires fmt != [] && Writing(s, i, fmt, args, whole)
    modifies s, s.buf
    ensures 0 < used <= |fmt| && taken <= |args| && (s.buf == old(s.buf) || fresh(s.buf))
    ensures Writing(s, next, fmt[used..], args[taken..], whole)
  {
    hide *;
    WritingHolds(s, i, fmt, args, whole);
    ghost var content := s.View().content;
    LiteralStep(content, fmt, args, whole);
    next, used, taken := i, 1, 0;
    if s.Avail() == 0 {
      MakeSure(s, i, 1, content);
    }
    if fmt[0] == PERCENT {
      var c := if |fmt| > 1 then fmt[1] else 0;
      if |fmt| > 1 {
        used := 2;
        MarkedStep(content, fmt, args, whole);
        if SpecOf(c) != Verbatim {
          next := WriteArg(s, i, SpecOf(c), args[0], content);
          taken := 1;
          content := content + Shown(args[0]);
        } else {
          next := WriteAt(s, i, [c], content);
          content := content + [c];
        }
      }
    } else {
      next := WriteAt(s, i, [fmt[0]], content);
      content := content + [fmt[0]];
    }
    assert taken == 0 ==> args[taken..] == args;
    HoldsWriting(s, next, content, fmt[used..], args[taken..], whole);
  }

  /** The loop of sdscatfmt. */
  method WriteAll(s: Sds, start: nat, fmt: CString, args: seq<Arg>, ghost whole: bytes)
      returns (i: nat, ghost left: seq<Arg>)
    requires Writing(s, start, fmt, args, whole)
    modifies s, s.buf
    ensures Writing(s, i, [], left, whole) && (s.buf == old(s.buf) || fresh(s.buf))
  {
    hide *;
    i, left := start, args;
    var f, n := 0, 0;
    while f < |fmt|
      invariant 0 <= f <= |fmt| && 0 <= n <= |args| && left == args[n..]
      invariant s.buf == old(s.buf) || fresh(s.buf)
      invariant Writing(s, i, fmt[f..], left, whole)
    {
      var used, taken;
      i, used, taken := Turn(s, i, fmt[f..], args[n..], whole);
      assert fmt[f..][used..] == fmt[f + used..] && left[taken..] == args[n + taken..];
      f, n, left := f + used, n + taken, left[taken..];
    }
  }

  /** sdscatfmt */
  method CatFmt(s: Sds, fmt: CString, args: seq<Arg>)
    requires s.Valid() && ArgsMatch(fmt, args)
    requires Fits(2 * s.Len() + 2 * |fmt|) && Fits(s.Len() + |Format(fmt, args)| + 1)
    modifies s, s.buf
    ensures s.Valid() && (s.buf == old(s.buf) || fresh(s.buf))
    ensures s.View().content == old(s.View().content) + Format(fmt, args)
  {
    ghost var content := s.View().content;
    ghost var whole := content + Format(fmt, args);
    s.ViewIsOk();
    var initlen := s.Len();
    Prepare(s, initlen, fmt, args, content, whole);
    var i, left := WriteAll(s, initlen, fmt, args, whole);
    Finish(s, i, left, whole);
  }

  /** Room for twice the format, in front of the loop. */
  method Prepare(s: Sds, initlen: nat, fmt: CString, args: seq<Arg>, ghost content: bytes, ghost whole: bytes)
    requires Holds(s, initlen, content) && ToWrite(content, fmt, args, whole) && Fits(2 * initlen + 2 * |fmt|)
    modifies s
    ensures Writing(s, initlen, fmt, args, whole) && (s.buf == old(s.buf) || fresh(s.buf))
  {
    hide LenIn, AllocIn, TypeOf, Modulus, GrownSize, ReqType, ToWrite;
    s.MakeRoomFor(initlen + |fmt| * 2);
  }

  /** And the terminator behind it. */
  method Finish(s: Sds, i: nat, ghost left: seq<Arg>, ghost whole: bytes)
    requires Writing(s, i, [], left, whole)
    modifies s.buf
    ensures s.Valid() && s.View().content == whole
  {
    hide LenIn, AllocIn, TypeOf, Modulus;
    assert s.View().content == whole;
    s.buf[i] := 0;
  }
}
