/** Splitting a line into arguments, quoted or not. */
module SdsArgs {
  import opened Bytes

  const QUOTE: byte := 34
  const APOSTROPHE: byte := 39
  const BACKSLASH: byte := 92
  const LETTER_X: byte := 120

  predicate IsSpace(c: byte) { c == 32 || 9 <= c <= 13 }

  /** What ends an argument outside quotes: fewer bytes than are skipped in front of one. */
  predicate EndsBare(c: byte) { c == 32 || c == 10 || c == 13 || c == 9 }

  predicate IsHex(c: byte) { 48 <= c <= 57 || 97 <= c <= 102 || 65 <= c <= 70 }

  function HexValue(c: byte): (n: nat)
    ensures n < 16
  {
    if 48 <= c <= 57 then c - 48
    else if 97 <= c <= 102 then c - 87
    else if 65 <= c <= 70 then c - 55
    else 0
  }

  function Unescape(c: byte): byte {
    if c == 110 then 10 else if c == 114 then 13 else if c == 116 then 9
    else if c == 98 then 8 else if c == 97 then 7 else c
  }

  datatype Mode = Bare | InDouble | InSingle

  /** What one turn of the token loop does with the bytes ahead: it gives up, ends the token,
      or emits bytes; and how many bytes it uses up. */
  datatype Turn = Fail | Done(skip: nat) | Go(out: bytes, mode: Mode, skip: nat)

  predicate HexEscape(s: bytes) {
    |s| >= 4 && s[0] == BACKSLASH && s[1] == LETTER_X && IsHex(s[2]) && IsHex(s[3])
  }

  /** A closing quote must be followed by a space or the end. */
  function Closing(s: bytes): Turn {
    if |s| > 1 && !IsSpace(s[1]) then Fail else Done(1)
  }

  function NextBare(s: bytes): Turn {
    if s == [] then Done(0)
    else if EndsBare(s[0]) then Done(1)
    else if s[0] == QUOTE then Go([], InDouble, 1)
    else if s[0] == APOSTROPHE then Go([], InSingle, 1)
    else Go([s[0]], Bare, 1)
  }

  function NextDouble(s: bytes): Turn {
    if HexEscape(s) then Go([16 * HexValue(s[2]) + HexValue(s[3])], InDouble, 4)
    else if s == [] then Fail
    else if s[0] == BACKSLASH && |s| > 1 then Go([Unescape(s[1])], InDouble, 2)
    else if s[0] == QUOTE then Closing(s)
    else Go([s[0]], InDouble, 1)
  }

  function NextSingle(s: bytes): Turn {
    if s == [] then Fail
    else if s[0] == BACKSLASH && |s| > 1 && s[1] == APOSTROPHE then Go([APOSTROPHE], InSingle, 2)
    else if s[0] == APOSTROPHE then Closing(s)
    else Go([s[0]], InSingle, 1)
  }

  function Next(mode: Mode, s: bytes): (t: Turn)
    ensures t.Go? ==> 0 < t.skip <= |s|
    ensures t.Done? ==> t.skip <= |s| && (s != [] ==> t.skip > 0)
  {
    match mode
    case Bare => NextBare(s)
    case InDouble => NextDouble(s)
    case InSingle => NextSingle(s)
  }

  /** A token and the bytes behind it. */
  datatype Scanned = Failed | Got(value: bytes, rest: bytes)

  function Prefix(v: bytes, r: Scanned): Scanned {
    match r
    case Failed => Failed
    case Got(w, rest) => Got(v + w, rest)
  }

  function Scan(mode: Mode, s: bytes): (r: Scanned)
    ensures r.Got? ==> |r.rest| <= |s| && (s != [] ==> |r.rest| < |s|)
    decreases |s|
  {
    match Next(mode, s)
    case Fail => Failed
    case Done(skip) => Got([], s[skip..])
    case Go(out, mode', skip) => Prefix(out, Scan(mode', s[skip..]))
  }

  function SkipBlanks(s: bytes): (r: bytes)
    ensures |r| <= |s| && (r != [] ==> !IsSpace(r[0]))
  {
    if s != [] && IsSpace(s[0]) then SkipBlanks(s[1..]) else s
  }

  /** The arguments of a line, or None for the NULL result. */
  function Args(s: bytes): Option<seq<bytes>>
    decreases |s|
  {
    var t := SkipBlanks(s);
    if t == [] then Some([])
    else
      match Scan(Bare, t)
      case Failed => None
      case Got(v, rest) =>
        match Args(rest)
        case None => None
        case Some(vs) => Some([v] + vs)
  }

  /** A C string with its terminator. */
  ghost predicate IsLine(line: bytes) {
    line != [] && line[|line| - 1] == 0 && forall k :: 0 <= k < |line| - 1 ==> line[k] != 0
  }

  /** The bytes from p to the terminator. */
  function Rest(line: bytes, p: nat): (r: bytes)
    requires p < |line|
    ensures |r| == |line| - 1 - p
    ensures forall k :: 0 <= k < |r| ==> r[k] == line[p + k]
  {
    line[p..|line| - 1]
  }

  lemma RestSkips(line: bytes, p: nat, k: nat)
    requires p + k < |line|
    ensures Rest(line, p)[k..] == Rest(line, p + k)
  {
  }

  function ModeOf(inq: bool, insq: bool): Mode {
    if inq then InDouble else if insq then InSingle else Bare
  }

  /** What a turn did, in terms of what it was to do. */
  ghost predicate Did(t: Turn, ok: bool, emitted: bytes, moved: int, mode: Mode, done: bool) {
    match t
    case Fail => !ok
    case Done(skip) => ok && done && emitted == [] && moved == skip
    case Go(out, m, skip) => ok && !done && emitted == out && moved == skip && mode == m
  }

  /** A turn inside double quotes, up to the last byte it uses. */
  method DoubleTurn(line: bytes, start: nat) returns (ok: bool, p: nat, emitted: bytes, done: bool)
    requires IsLine(line) && start < |line|
    ensures ok ==> start <= p < |line|
    ensures Did(NextDouble(Rest(line, start)), ok, emitted, if ok && line[p] != 0 then p + 1 - start else p - start, InDouble, done)
  {
    ok, p, emitted, done := true, start, [], false;
    if line[p] == BACKSLASH && line[p + 1] == LETTER_X && IsHex(line[p + 2]) && IsHex(line[p + 3]) {
      emitted := [HexValue(line[p + 2]) * 16 + HexValue(line[p + 3])];
      p := p + 3;
    } else if line[p] == BACKSLASH && line[p + 1] != 0 {
      p := p + 1;
      emitted := [Unescape(line[p])];
    } else if line[p] == QUOTE {
      if line[p + 1] != 0 && !IsSpace(line[p + 1]) {
        ok := false;
        return;
      }
      done := true;
    } else if line[p] == 0 {
      ok := false;
    } else {
      emitted := [line[p]];
    }
  }

  method SingleTurn(line: bytes, start: nat) returns (ok: bool, p: nat, emitted: bytes, done: bool)
    requires IsLine(line) && start < |line|
    ensures ok ==> start <= p < |line|
    ensures Did(NextSingle(Rest(line, start)), ok, emitted, if ok && line[p] != 0 then p + 1 - start else p - start, InSingle, done)
  {
    ok, p, emitted, done := true, start, [], false;
    if line[p] == BACKSLASH && line[p + 1] == APOSTROPHE {
      p := p + 1;
      emitted := [APOSTROPHE];
    } else if line[p] == APOSTROPHE {
      if line[p + 1] != 0 && !IsSpace(line[p + 1]) {
        ok := false;
        return;
      }
      done := true;
    } else if line[p] == 0 {
      ok := false;
    } else {
      emitted := [line[p]];
    }
  }

  /** A turn of the token loop. */
  method TakeTurn(line: bytes, start: nat, inq: bool, insq: bool)
      returns (ok: bool, p: nat, emitted: bytes, inq': bool, insq': bool, done: bool)
    requires IsLine(line) && start < |line|
    ensures ok ==> start <= p < |line|
    ensures Did(Next(ModeOf(inq, insq), Rest(line, start)), ok, emitted, p - start, ModeOf(inq', insq'), done)
  {
    ok, p, emitted, inq', insq', done := true, start, [], inq, insq, false;
    if inq {
      ok, p, emitted, done := DoubleTurn(line, p);
    } else if insq {
      ok, p, emitted, done := SingleTurn(line, p);
    } else if line[p] == 0 || EndsBare(line[p]) {
      done := true;
    } else if line[p] == QUOTE {
      inq' := true;
    } else if line[p] == APOSTROPHE {
      insq' := true;
    } else {
      emitted := [line[p]];
    }
    if ok && line[p] != 0 {
      p := p + 1;
    }
  }

  /** The part of the token scanned so far and what the scan of the rest yields. */
  ghost predicate Scanning(line: bytes, whole: Scanned, p: nat, current: bytes, mode: Mode, done: bool) {
    && IsLine(line) && p < |line|
    && if done then whole == Got(current, Rest(line, p))
       else whole == Prefix(current, Scan(mode, Rest(line, p)))
  }

  lemma ScanningTurn(line: bytes, whole: Scanned, p: nat, current: bytes, mode: Mode,
                     ok: bool, emitted: bytes, p': nat, mode': Mode, done: bool)
    requires Scanning(line, whole, p, current, mode, false)
    requires Did(Next(mode, Rest(line, p)), ok, emitted, p' - p, mode', done)
    requires ok ==> p <= p' < |line|
    ensures if ok then Scanning(line, whole, p', current + emitted, mode', done) else whole.Failed?
    ensures ok && !done ==> p < p'
  {
    hide NextBare, NextDouble, NextSingle;
    if ok {
      RestSkips(line, p, p' - p);
      if !done {
        var r := Scan(mode', Rest(line, p'));
        if r.Got? {
          ConcatAssoc(current, emitted, r.value);
        }
      }
    }
  }

  /** Gets one token; p ends up behind it. */
  method GetToken(line: bytes, start: nat) returns (ok: bool, p: nat, current: bytes)
    requires IsLine(line) && start < |line|
    ensures ok ==> p < |line| && Scan(Bare, Rest(line, start)) == Got(current, Rest(line, p))
    ensures !ok ==> Scan(Bare, Rest(line, start)).Failed?
  {
    ghost var whole := Scan(Bare, Rest(line, start));
    var inq, insq, done := false, false, false;
    ok, p, current := true, start, [];
    while !done
      invariant ok && Scanning(line, whole, p, current, ModeOf(inq, insq), done)
      decreases if done then 0 else 1, |line| - p
    {
      hide Did, Scan, Next;
      var p', emitted, inq', insq';
      ok, p', emitted, inq', insq', done := TakeTurn(line, p, inq, insq);
      ScanningTurn(line, whole, p, current, ModeOf(inq, insq), ok, emitted, p', ModeOf(inq', insq'), done);
      if !ok {
        return;
      }
      p, current, inq, insq := p', current + emitted, inq', insq';
    }
  }

  method Skip(line: bytes, start: nat) returns (p: nat)
    requires IsLine(line) && start < |line|
    ensures start <= p < |line| && Rest(line, p) == SkipBlanks(Rest(line, start))
  {
    p := start;
    while line[p] != 0 && IsSpace(line[p])
      invariant start <= p < |line| && SkipBlanks(Rest(line, p)) == SkipBlanks(Rest(line, start))
      decreases |line| - p
    {
      RestSkips(line, p, 1);
      p := p + 1;
    }
  }

  function Behind(found: seq<bytes>, more: Option<seq<bytes>>): Option<seq<bytes>> {
    match more
    case None => None
    case Some(vs) => Some(found + vs)
  }

  /** sdssplitargs: the arguments and their count, or None and 0. */
  method SplitArgs(line: bytes) returns (vector: Option<seq<bytes>>, argc: nat)
    requires IsLine(line)
    ensures vector == Args(line[..|line| - 1])
    ensures argc == if vector.Some? then |vector.value| else 0
  {
    var found: seq<bytes> := [];
    var p: nat := 0;
    ghost var whole := Args(Rest(line, 0));
    argc := 0;
    assert whole.Some? ==> [] + whole.value == whole.value;
    while true
      invariant p < |line| && argc == |found|
      invariant whole == Behind(found, Args(Rest(line, p)))
      decreases |line| - p
    {
      hide Scan;
      p := Skip(line, p);
      if line[p] == 0 {
        assert found + [] == found;
        return Some(found), argc;
      }
      var ok, next, current := GetToken(line, p);
      if !ok {
        return None, 0;
      }
      if Args(Rest(line, next)).Some? {
        ConcatAssoc(found, [current], Args(Rest(line, next)).value);
      }
      p, found, argc := next, found + [current], argc + 1;
    }
  }
}
