/** The arena of a shared data slot: a pointer that moves through a fixed capacity. */
module SimpleArena {
  import opened Bytes

  /** The fields that travel between the shared table and an access session. `hasData` says
      whether the data pointer is set. */
  datatype Arena = Arena(size: nat, capacity: nat, pointer: nat, hasData: bool)

  const EMPTY := Arena(0, 0, 0, false)

  /** `Aborted` is the failed assertion; a refusal returns the NULL arena pointer, which is the
      offset 0. */
  datatype AllocResult = Aborted | Refused | Allocated(start: nat)

  /** sarena_init: an arena that has a capacity or data is left as it is. */
  function Init(a: Arena, capacity: nat, hasData: bool): Arena {
    if a.capacity != 0 || a.hasData then a else a.(capacity := capacity, size := 0, hasData := hasData)
  }

  /** sarena_alloc, with size_t arithmetic. */
  function Alloc(a: Arena, n: nat): (Arena, AllocResult) {
    var end := (a.pointer + n) % TWO_64;
    if end > a.capacity then (a, Aborted)
    else if end == a.capacity then (a, Refused)
    else (a.(pointer := end, size := (a.size + n) % TWO_64), Allocated(a.pointer))
  }

  class SArena {
    var size: nat
    var capacity: nat
    var pointer: nat
    var hasData: bool

    function Fields(): Arena
      reads this
    {
      Arena(size, capacity, pointer, hasData)
    }

    constructor (a: Arena)
      ensures Fields() == a
    {
      size, capacity, pointer, hasData := a.size, a.capacity, a.pointer, a.hasData;
    }

    method InitWith(givenData: bool, newCapacity: nat) returns (ok: bool)
      modifies this
      ensures Fields() == Init(old(Fields()), newCapacity, givenData)
      ensures ok <==> old(capacity) == 0 && !old(hasData)
    {
      if capacity != 0 || hasData {
        return false;
      }
      capacity := newCapacity;
      size := 0;
      hasData := givenData;
      return true;
    }

    method AllocBytes(n: nat) returns (result: AllocResult)
      modifies this
      ensures (Fields(), result) == Alloc(old(Fields()), n)
    {
      var newPointer := (pointer + n) % TWO_64;
      if newPointer > capacity {
        return Aborted;
      }
      if newPointer >= capacity {
        return Refused;
      }
      result := Allocated(pointer);
      pointer := newPointer;
      size := (size + n) % TWO_64;
    }
  }

  /** A stretch of the arena handed to a caller. */
  datatype Stretch = Stretch(start: nat, size: nat)

  /** The stretches lie one behind the other from 0 to the pointer. */
  ghost predicate Packed(stretches: seq<Stretch>, pointer: nat) {
    if stretches == [] then pointer == 0
    else
      var last := stretches[|stretches| - 1];
      last.start + last.size == pointer && Packed(stretches[..|stretches| - 1], last.start)
  }

  /** Stretches handed out never overlap, and stay in front of the pointer. */
  lemma {:induction false} PackedDisjoint(stretches: seq<Stretch>, pointer: nat, i: nat, j: nat)
    requires Packed(stretches, pointer) && i < j < |stretches|
    ensures stretches[i].start + stretches[i].size <= stretches[j].start
    ensures stretches[j].start + stretches[j].size <= pointer
    decreases |stretches|
  {
    var n := |stretches| - 1;
    if j < n {
      PackedDisjoint(stretches[..n], stretches[n].start, i, j);
    } else {
      PackedBelow(stretches[..n], stretches[n].start, i);
    }
  }

  lemma {:induction false} PackedBelow(stretches: seq<Stretch>, pointer: nat, i: nat)
    requires Packed(stretches, pointer) && i < |stretches|
    ensures stretches[i].start + stretches[i].size <= pointer
    decreases |stretches|
  {
    var n := |stretches| - 1;
    if i < n {
      PackedBelow(stretches[..n], stretches[n].start, i);
    }
  }

  /** The bytes handed out. */
  function Total(stretches: seq<Stretch>): nat {
    if stretches == [] then 0 else Total(stretches[..|stretches| - 1]) + stretches[|stretches| - 1].size
  }

  /** Nothing lies between the stretches. */
  lemma {:induction false} TotalIsPointer(stretches: seq<Stretch>, pointer: nat)
    requires Packed(stretches, pointer)
    ensures Total(stretches) == pointer
    decreases |stretches|
  {
    if stretches != [] {
      var last := stretches[|stretches| - 1];
      TotalIsPointer(stretches[..|stretches| - 1], last.start);
    }
  }

  /** An allocation that does not wrap around succeeds exactly when it ends before the capacity;
      then it gets what lies at the old pointer. It is refused when it ends at the capacity. */
  lemma AllocAnswers(a: Arena, n: nat)
    requires a.pointer + n < TWO_64
    ensures var (a', r) := Alloc(a, n);
            && (r == Allocated(a.pointer) <==> a.pointer + n < a.capacity)
            && (r == Refused <==> a.pointer + n == a.capacity)
            && (r == Aborted <==> a.pointer + n > a.capacity)
            && (r != Allocated(a.pointer) ==> a' == a)
            && (r == Allocated(a.pointer) ==>
                  && a'.pointer == a.pointer + n && a'.capacity == a.capacity && a'.hasData == a.hasData
                  && (a.size + n < TWO_64 ==> a'.size == a.size + n))
  {
  }

  /** An allocation that does not wrap around continues the stretches and ends before the
      capacity. */
  lemma AllocContinues(a: Arena, n: nat, stretches: seq<Stretch>)
    requires Packed(stretches, a.pointer) && a.pointer + n < TWO_64
    ensures var (a', r) := Alloc(a, n);
            && a'.capacity == a.capacity
            && (r.Allocated? ==> Packed(stretches + [Stretch(r.start, n)], a'.pointer) && a'.pointer < a'.capacity)
            && (r.Allocated? ==> Total(stretches + [Stretch(r.start, n)]) == Total(stretches) + n)
            && (!r.Allocated? ==> a' == a)
  {
    var all := stretches + [Stretch(a.pointer, n)];
    assert all[..|all| - 1] == stretches;
  }

  /** A new arena takes the capacity and the data it is given and serves allocations from its
      beginning; one that has either already is left as it is. */
  lemma InitThenAlloc(a: Arena, capacity: nat, hasData: bool, n: nat)
    requires n < TWO_64
    ensures a.capacity != 0 || a.hasData ==> Init(a, capacity, hasData) == a
    ensures a == EMPTY ==>
              var b := Init(a, capacity, hasData);
              && b == Arena(0, capacity, 0, hasData)
              && (Alloc(b, n).1 == Allocated(0) <==> n < capacity)
              && (n < capacity ==> Alloc(b, n).0 == Arena(n, capacity, n, hasData))
  {
  }
}
