/** Growable byte strings: a buffer behind a header, which changes its type as they grow. */
module Sds {
  import opened Bytes
  import opened SdsHeader

  const MAX_PREALLOC: nat := 1024 * 1024

  /** The smallest type that can hold the size. */
  function ReqType(size: nat): (kind: Kind)
    ensures size < TWO_64 ==> size < Modulus(kind)
    ensures forall k: Kind :: size < Modulus(k) ==> Modulus(kind) <= Modulus(k)
  {
    if size < 32 then K5
    else if size < 256 then K8
    else if size < 65536 then K16
    else if size < TWO_32 then K32
    else K64
  }

  /** Type 5 cannot remember free space, so growing strings never get it. */
  function GrowType(size: nat): Kind {
    if ReqType(size) == K5 then K8 else ReqType(size)
  }

  /** A string and its header; `moved` counts content bytes carried over by reallocations. */
  datatype State = State(kind: Kind, alloc: nat, content: bytes, moved: nat)

  predicate Ok(s: State) {
    |s.content| <= s.alloc < Modulus(s.kind) && (s.kind == K5 ==> s.alloc == |s.content|)
  }

  function NewState(init: bytes): State {
    State(if init == [] then K8 else ReqType(|init|), |init|, init, 0)
  }

  function GrownSize(req: nat): nat { if req < MAX_PREALLOC then 2 * req else req + MAX_PREALLOC }

  /** Sizes for which size_t arithmetic does not wrap around. */
  predicate Fits(size: nat) { size + MAX_PREALLOC < TWO_64 }

  /** Room for a length of `req` bytes. */
  function Roomy(s: State, req: nat): State {
    if s.alloc >= req then s
    else State(GrowType(GrownSize(req)), GrownSize(req), s.content, s.moved + |s.content|)
  }

  function Tight(s: State): State {
    var n := |s.content|;
    var kind := ReqType(n);
    if s.alloc == n then s
    else State(if kind.K5? || kind.K8? then kind else s.kind, n, s.content, s.moved + n)
  }

  /** New content in the same buffer; the allocation of a type 5 string is its length. */
  function Refilled(s: State, content: bytes): State {
    s.(content := content, alloc := if s.kind == K5 then |content| else s.alloc)
  }

  function Appended(s: State, t: bytes): State { Refilled(Roomy(s, |s.content| + |t|), s.content + t) }

  function Copied(s: State, t: bytes): State {
    Refilled(Roomy(s, |t|), t)
  }

  function GrownZero(s: State, len: nat): State {
    if len <= |s.content| then s
    else Refilled(Roomy(s, len), s.content + Zeros(len - |s.content|))
  }

  /** Appending, copying and filling up are a new content where there is room for it. */
  lemma AppendedIs(s: State, t: bytes)
    ensures var r := Roomy(s, |s.content| + |t|); Refilled(r, r.content[..|s.content|] + t) == Appended(s, t)
  {
  }

  lemma CopiedIs(s: State, t: bytes)
    ensures var r := Roomy(s, |t|); Refilled(r, r.content[..0] + t) == Copied(s, t)
    ensures s.alloc >= |t| ==> Roomy(s, |t|) == s
  {
    assert [] + t == t;
  }

  lemma GrownIs(s: State, len: nat)
    ensures len <= |s.content| ==> GrownZero(s, len) == s
    ensures var r, n := Roomy(s, len), |s.content|;
            len > n ==> Refilled(r, r.content[..n] + Zeros(len - n)) == GrownZero(s, len)
  {
  }

  /** A string in memory: the bytes of the header and the buffer behind it. */
  class Sds {
    var header: Header
    var buf: array<byte>
    ghost var moved: nat

    function Type(): Kind
      reads this
    {
      TypeOf(header)
    }

    function Len(): nat
      reads this
    {
      LenIn(header)
    }

    function AllocLen(): nat
      reads this
    {
      AllocIn(header)
    }

    /** sdsavail */
    function Avail(): int
      reads this
    {
      if Type() == K5 then 0 else AllocLen() - Len()
    }

    /** The header tells no more than there is. */
    ghost predicate Framed()
      reads this
    {
      Len() <= AllocLen() < Modulus(Type()) && AllocLen() + 1 <= buf.Length
    }

    /** And the terminator is in place. */
    ghost predicate Valid()
      reads this, buf
    {
      Framed() && buf[Len()] == 0
    }

    ghost function View(): (s: State)
      reads this, buf
      requires Framed()
      ensures Ok(s)
    {
      State(Type(), AllocLen(), buf[..Len()], moved)
    }

    /** sdsnewlen; without initial bytes the string is filled with zeros. */
    constructor (init: Option<bytes>, initlen: nat)
      requires initlen + 1 < TWO_64 && (init.Some? ==> |init.value| == initlen)
      ensures Valid() && fresh(buf)
      ensures View() == NewState(if init.Some? then init.value else Zeros(initlen))
    {
      hide Modulus, Stored, LenIn, AllocIn;
      var wanted := ReqType(initlen);
      if wanted == K5 && initlen == 0 {
        wanted := K8;
      }
      var data := new byte[initlen + 1];
      var from := if init.Some? then init.value else Zeros(initlen);
      var end := CopyInto(data, 0, from);
      data[initlen] := 0;
      NewReadsBack(wanted, initlen);
      header, moved := NewHeader(wanted, initlen), 0;
      buf := data;
      assert data[..initlen] == from;
    }

    /** sdssetlen: the string has the length from now on, if the type can hold it. */
    method SetLen(newlen: nat)
      modifies this`header
      ensures Type() == old(Type()) && Len() == Stored(Type(), newlen)
      ensures AllocLen() == if Type() == K5 then Len() else old(AllocLen())
    {
      LenReadsBack(header, newlen);
      header := WithLen(header, newlen);
    }

    /** sdssetalloc: and the allocation, but a type 5 string is allocated what it is long. */
    method SetAlloc(newlen: nat)
      modifies this`header
      ensures Type() == old(Type()) && Len() == old(Len())
      ensures AllocLen() == if Type() == K5 then Len() else Stored(Type(), newlen)
    {
      AllocReadsBack(header, newlen);
      header := WithAlloc(header, newlen);
    }

    /** A new block with room for `capacity` bytes and the terminator, holding the string. */
    method Reallocate(capacity: nat, wanted: Kind)
      requires Framed() && Len() <= capacity < Modulus(wanted)
      modifies this
      ensures Framed() && fresh(buf) && buf[Len()] == old(buf[Len()])
      ensures View() == State(wanted, if wanted == K5 then Len() else capacity, old(View()).content, old(moved) + Len())
    {
      hide LenIn, AllocIn, TypeOf, Modulus;
      var len := Len();
      var data := new byte[capacity + 1];
      ghost var kept := buf[..len + 1];
      var end := CopyInto(data, 0, buf[..len + 1]);
      assert data[..len + 1] == kept;
      assert kept[..len] == buf[..len] && data[..len] == kept[..len] && data[len] == kept[len];
      moved := moved + len;
      Rewrite(wanted, capacity);
      buf := data;
    }

    /** The header for a block with room for `capacity` bytes; another type means another header. */
    method Rewrite(wanted: Kind, capacity: nat)
      requires Len() <= capacity < Modulus(wanted)
      modifies this`header
      ensures Type() == wanted && Len() == old(Len())
      ensures AllocLen() == if wanted == K5 then Len() else capacity
    {
      hide LenIn, AllocIn, TypeOf, Modulus;
      var len := Len();
      if Type() != wanted {
        header := NewHeader(wanted, 0);
        SetLen(len);
      }
      SetAlloc(capacity);
    }

    /** sdsMakeRoomFor */
    method MakeRoomFor(add: nat)
      requires Framed() && Fits(Len() + add)
      modifies this
      ensures Framed() && (old(Valid()) ==> Valid()) && buf[Len()] == old(buf[Len()])
      ensures View() == Roomy(old(View()), old(Len()) + add)
      ensures Avail() >= add
      ensures if old(Avail()) >= add then buf == old(buf) else fresh(buf)
    {
      if Avail() >= add {
        return;
      }
      var newlen := Len() + add;
      if newlen < MAX_PREALLOC {
        newlen := newlen * 2;
      } else {
        newlen := newlen + MAX_PREALLOC;
      }
      var wanted := ReqType(newlen);
      if wanted == K5 {
        wanted := K8;
      }
      Reallocate(newlen, wanted);
    }

    /** sdsRemoveFreeSpace */
    method RemoveFreeSpace()
      requires Valid()
      modifies this
      ensures Valid() && View() == Tight(old(View()))
      ensures buf == old(buf) || fresh(buf)
    {
      if Avail() == 0 {
        return;
      }
      var wanted := ReqType(Len());
      if Type() == wanted || !(wanted.K5? || wanted.K8?) {
        Reallocate(Len(), Type());
      } else {
        Reallocate(Len(), wanted);
      }
    }

    /** sdsinclen: the string is longer by `inc` from now on. */
    method IncLen(inc: nat)
      modifies this`header
      ensures Type() == old(Type()) && Len() == Stored(Type(), old(Len()) + inc)
      ensures AllocLen() == if Type() == K5 then Len() else old(AllocLen())
    {
      LenReadsBack(header, LenIn(header) + inc);
      header := WithLen(header, LenIn(header) + inc);
    }

    /** `size` bytes may be written at `start` and the string may end there. */
    ghost predicate CanPut(start: nat, size: nat)
      reads this
    {
      && start <= Len() && start + size < Modulus(Type()) && start + size < buf.Length
      && (Type() != K5 ==> start + size <= AllocLen())
    }

    /** Where there was made room for it, that is so. */
    lemma RoomToPut(s: State, req: nat, start: nat, size: nat)
      requires Framed() && Ok(s) && Fits(req) && View() == Roomy(s, req)
      requires start <= |s.content| && start + size <= req
      ensures CanPut(start, size)
    {
      RoomIsProvided(s, req);
      hide LenIn, AllocIn, TypeOf, Modulus, Roomy;
    }

    lemma ViewIsOk()
      requires Framed()
      ensures Ok(View()) && |View().content| == Len() && View().alloc == AllocLen()
    {
    }

    /** Writes `t` at `start` and ends the string there. */
    method Put(start: nat, t: bytes)
      requires Valid() && CanPut(start, |t|)
      modifies this`header, buf
      ensures Valid() && buf == old(buf)
      ensures View() == Refilled(old(View()), old(View()).content[..start] + t)
    {
      hide LenIn, AllocIn, TypeOf, Modulus;
      var end := CopyInto(buf, start, t);
      SetLen(start + |t|);
      buf[start + |t|] := 0;
      assert buf[..end] == old(buf[..start]) + t;
    }

    /** sdscatlen */
    method CatLen(t: bytes)
      requires Valid() && Fits(Len() + |t|)
      modifies this, buf
      ensures Valid() && View() == Appended(old(View()), t)
      ensures buf == old(buf) || fresh(buf)
    {
      AppendedIs(View(), t);
      hide *;
      ghost var was := View();
      ViewIsOk();
      var curlen := Len();
      MakeRoomFor(|t|);
      RoomToPut(was, curlen + |t|, curlen, |t|);
      Put(curlen, t);
    }

    /** sdscpylen */
    method CpyLen(t: bytes)
      requires Valid() && Fits(|t|)
      modifies this, buf
      ensures Valid() && View() == Copied(old(View()), t)
      ensures buf == old(buf) || fresh(buf)
    {
      CopiedIs(View(), t);
      hide *;
      ghost var was := View();
      ViewIsOk();
      if AllocLen() < |t| {
        MakeRoomFor(|t| - Len());
      }
      RoomToPut(was, |t|, 0, |t|);
      Put(0, t);
    }

    /** sdsgrowzero */
    method GrowZero(len: nat)
      requires Valid() && Fits(len)
      modifies this, buf
      ensures Valid() && View() == GrownZero(old(View()), len)
      ensures buf == old(buf) || fresh(buf)
    {
      GrownIs(View(), len);
      hide *;
      ghost var was := View();
      ViewIsOk();
      var curlen := Len();
      if len > curlen {
        MakeRoomFor(len - curlen);
        RoomToPut(was, len, curlen, len - curlen);
        Put(curlen, Zeros(len - curlen));
      }
    }

    /** sdsclear */
    method Clear()
      requires Valid()
      modifies this, buf
      ensures Valid() && View() == Refilled(old(View()), [])
      ensures buf == old(buf)
    {
      assert View().content[..0] + [] == [];
      Put(0, []);
    }
  }

  datatype Op =
    | CatLen(t: bytes)
    | CpyLen(t: bytes)
    | GrowZero(len: nat)
    | MakeRoom(add: nat)
    | RemoveFreeSpace
    | Clear

  function Apply(s: State, op: Op): State {
    match op
    case CatLen(t) => Appended(s, t)
    case CpyLen(t) => Copied(s, t)
    case GrowZero(len) => GrownZero(s, len)
    case MakeRoom(add) => Roomy(s, |s.content| + add)
    case RemoveFreeSpace => Tight(s)
    case Clear => Refilled(s, [])
  }

  function ApplyAll(s: State, ops: seq<Op>): State
    decreases |ops|
  {
    if ops == [] then s else ApplyAll(Apply(s, ops[0]), ops[1..])
  }

  /** The effect on a plain byte sequence. */
  function Plain(content: bytes, op: Op): bytes {
    match op
    case CatLen(t) => content + t
    case CpyLen(t) => t
    case GrowZero(len) => if len <= |content| then content else content + Zeros(len - |content|)
    case MakeRoom(_) => content
    case RemoveFreeSpace => content
    case Clear => []
  }

  function PlainAll(content: bytes, ops: seq<Op>): bytes
    decreases |ops|
  {
    if ops == [] then content else PlainAll(Plain(content, ops[0]), ops[1..])
  }

  /** The length an operation asks room for. */
  function Asked(content: bytes, op: Op): nat {
    match op
    case CatLen(t) => |content| + |t|
    case CpyLen(t) => |t|
    case GrowZero(len) => len
    case MakeRoom(add) => |content| + add
    case RemoveFreeSpace => 0
    case Clear => 0
  }

  predicate AllFit(content: bytes, ops: seq<Op>)
    decreases |ops|
  {
    ops == [] || (Fits(Asked(content, ops[0])) && AllFit(Plain(content, ops[0]), ops[1..]))
  }

  lemma ReqIsEnough(size: nat)
    requires size < TWO_64
    ensures size < Modulus(ReqType(size)) && size < Modulus(GrowType(size)) && GrowType(size) != K5
  {
  }

  /** The room asked for is there, and the header has not forgotten it. */
  lemma RoomIsProvided(s: State, req: nat)
    requires Ok(s) && Fits(req)
    ensures Ok(Roomy(s, req)) && Roomy(s, req).content == s.content && req <= Roomy(s, req).alloc
  {
    hide Modulus, ReqType;
    ReqIsEnough(GrownSize(req));
  }

  lemma TightIsOk(s: State)
    requires Ok(s)
    ensures Ok(Tight(s)) && Tight(s).content == s.content && Tight(s).alloc == |s.content|
  {
    hide Modulus, ReqType;
    ReqIsEnough(|s.content|);
  }

  lemma OpIsPlain(s: State, op: Op)
    requires Ok(s) && Fits(Asked(s.content, op))
    ensures Ok(Apply(s, op)) && Apply(s, op).content == Plain(s.content, op)
    ensures Asked(s.content, op) <= |s.content| || Asked(s.content, op) <= Apply(s, op).alloc
  {
    hide Modulus, Roomy, Tight;
    RoomIsProvided(s, Asked(s.content, op));
    TightIsOk(s);
  }

  /** Any run of operations does to the content what it does to a plain byte sequence; the
      length never exceeds the allocation, nor the allocation what the header can hold. */
  lemma {:induction false} RunIsPlain(s: State, ops: seq<Op>)
    requires Ok(s) && AllFit(s.content, ops)
    ensures Ok(ApplyAll(s, ops)) && ApplyAll(s, ops).content == PlainAll(s.content, ops)
    decreases |ops|
  {
    if ops != [] {
      OpIsPlain(s, ops[0]);
      RunIsPlain(Apply(s, ops[0]), ops[1..]);
    }
  }

  function AppendAll(s: State, ts: seq<bytes>): State
    decreases |ts|
  {
    if ts == [] then s else AppendAll(Appended(s, ts[0]), ts[1..])
  }

  /** What holds while a string is built: it was allocated for some earlier length, and twice
      that. */
  ghost predicate Built(s: State) {
    && |s.content| <= s.alloc <= 2 * |s.content| && s.kind != K5
    && s.moved <= s.alloc && (s.content != [] ==> s.moved < s.alloc)
  }

  /** A reallocation asks for more than twice the length the last one was made for. */
  lemma RequestsDouble(s: State, t: bytes, u: bytes)
    requires Ok(s) && s.kind != K5 && |s.content| + |t| < MAX_PREALLOC
    requires s.alloc < |s.content| + |t|
    ensures var s1 := Appended(s, t);
            s1.alloc < |s1.content| + |u| <==> |s1.content| + |u| > 2 * (|s.content| + |t|)
  {
  }

  lemma {:induction false} BuildingMoves(s: State, ts: seq<bytes>)
    requires Built(s) && [] !in ts && |s.content| + |Flatten(ts)| < MAX_PREALLOC
    ensures Built(AppendAll(s, ts)) && AppendAll(s, ts).content == s.content + Flatten(ts)
    decreases |ts|
  {
    if ts == [] {
      assert s.content + Flatten(ts) == s.content;
    } else {
      BuildingMoves(Appended(s, ts[0]), ts[1..]);
      ConcatAssoc(s.content, ts[0], Flatten(ts[1..]));
    }
  }

  /** Building a string of n > 0 bytes by appends of any sizes moves fewer than 2n bytes. */
  lemma BuildingIsLinear(ts: seq<bytes>)
    requires ts != [] && [] !in ts && |Flatten(ts)| < MAX_PREALLOC
    ensures var s := AppendAll(NewState([]), ts);
            s.content == Flatten(ts) && s.moved < 2 * |Flatten(ts)|
  {
    BuildingMoves(NewState([]), ts);
    assert Flatten(ts) == ts[0] + Flatten(ts[1..]);
    assert [] + Flatten(ts) == Flatten(ts);
  }

  /** A new string is a plain byte sequence too, and so is whatever is done to it. */
  lemma RunFromNew(init: bytes, ops: seq<Op>)
    requires |init| < TWO_64 && AllFit(init, ops)
    ensures Ok(NewState(init)) && NewState(init).content == init && NewState(init).alloc == |init|
    ensures init == [] ==> NewState(init).kind == K8
    ensures init != [] ==> forall k: Kind :: |init| < Modulus(k) ==> Modulus(NewState(init).kind) <= Modulus(k)
    ensures Ok(ApplyAll(NewState(init), ops)) && ApplyAll(NewState(init), ops).content == PlainAll(init, ops)
  {
    ReqIsEnough(|init|);
    RunIsPlain(NewState(init), ops);
  }

  /** A string with room keeps its buffer. Otherwise its content is moved once, and it gets
      twice the length asked for, or from MAX_PREALLOC on that much more than the length, in a
      header of the smallest type but type 5 that can hold it. */
  lemma GrowingIsExact(s: State, req: nat)
    requires Ok(s) && Fits(req)
    ensures var r := Roomy(s, req);
            && (req <= s.alloc ==> r == s)
            && (req > s.alloc ==>
                  && r.moved == s.moved + |s.content|
                  && r.alloc - req == (if req < 1048576 then req else 1048576)
                  && r.kind != K5
                  && forall k: Kind :: k != K5 && r.alloc < Modulus(k) ==> Modulus(r.kind) <= Modulus(k))
  {
  }

  /** Trimming a string with free space moves its content once. A length below 256 gets the
      header of its size, a larger one keeps the header it has. */
  lemma TrimmingIsExact(s: State)
    requires Ok(s)
    ensures var r, n := Tight(s), |s.content|;
            && (s.alloc == n ==> r == s)
            && (s.alloc != n ==>
                  && r.moved == s.moved + n
                  && r.kind == (if n < 32 then K5 else if n < 256 then K8 else s.kind))
  {
  }

  /** How many of the appends reallocate. */
  function Reallocations(s: State, ts: seq<bytes>): nat
    decreases |ts|
  {
    if ts == [] then 0
    else (if s.alloc < |s.content| + |ts[0]| then 1 else 0) + Reallocations(Appended(s, ts[0]), ts[1..])
  }

  /** A string that has reached MAX_PREALLOC reallocates at most once in so many appended bytes. */
  lemma {:induction false} LargeStringsReallocateRarely(s: State, ts: seq<bytes>)
    requires Ok(s) && s.kind != K5 && |s.content| >= MAX_PREALLOC && Fits(|s.content| + |Flatten(ts)|)
    ensures var free, room := s.alloc - |s.content|, MAX_PREALLOC;
            Reallocations(s, ts) * (room + 1) <= if |Flatten(ts)| + room < free then 0 else |Flatten(ts)| + room - free
    decreases |ts|
  {
    if ts != [] {
      var s' := Appended(s, ts[0]);
      OpIsPlain(s, CatLen(ts[0]));
      GrowingIsExact(s, |s.content| + |ts[0]|);
      hide Roomy, ReqType, Modulus;
      LargeStringsReallocateRarely(s', ts[1..]);
    }
  }
}
