/** Shared data slots: a table in shared memory with a share counter per slot, a cache of
    linked slots in every process, and access sessions that copy the arena out and back. */
module SharedData {
  import opened Bytes
  import opened SimpleArena
  import opened HashTable

  const MAX_SLOTS: nat := 64
  const MAX_NAME_BYTES: nat := 64

  type Name = CString

  datatype Slot = Slot(counter: int, size: nat, name: Name, arena: Arena)

  /** The cache map of a process: the slots by name, and the names in each bucket of the hash
      table it is kept in. */
  datatype NameMap = NameMap(hash: Name -> nat, chains: seq<seq<Name>>, index: map<Name, nat>) {
    function Bucket(name: Name): (b: nat)
      requires chains != []
      ensures b < |chains|
    {
      hash(name) % |chains|
    }

    function Chain(name: Name): seq<Name>
      requires chains != []
    {
      chains[Bucket(name)]
    }

    /** Adding keeps an entry that is there; a new one comes first in its chain. */
    function Added(name: Name, i: nat): (m: NameMap)
      requires chains != []
      ensures |m.chains| == |chains|
    {
      if name in index then this
      else NameMap(hash, chains[Bucket(name) := [name] + Chain(name)], index[name := i])
    }

    /** What removing reports, by the place of the name in its chain. */
    function Outcome(name: Name): RemoveResult
      requires chains != []
    {
      OutcomeAt(Place(Chain(name), name), |Chain(name)|)
    }

    function Removed(name: Name): (m: NameMap)
      requires chains != []
      ensures |m.chains| == |chains|
    {
      var i := Place(Chain(name), name);
      if Outcome(name).Removed? then
        NameMap(hash, chains[Bucket(name) := Chain(name)[..i] + Chain(name)[i + 1..]], index - {name})
      else this
    }
  }

  type Names = m: NameMap | m.chains != [] witness NameMap(_ => 0, [[]], map[])

  /** What one process keeps: which slots it has linked, and their positions by name. */
  datatype View = View(cache: seq<bool>, names: Names)

  const FRESH := Slot(0, 0, [], EMPTY)

  /** The first slot with a zero counter, or the number of slots. */
  function FirstFree(slots: seq<Slot>): (i: nat)
    ensures i <= |slots|
    ensures i < |slots| ==> slots[i].counter == 0
    ensures forall j :: 0 <= j < i ==> slots[j].counter != 0
  {
    if slots == [] || slots[0].counter == 0 then 0 else 1 + FirstFree(slots[1..])
  }

  predicate LiveAs(slot: Slot, name: Name) { slot.counter != 0 && slot.name == name }

  /** The first live slot with the name, or the number of slots. */
  function FirstNamed(slots: seq<Slot>, name: Name): (i: nat)
    ensures i <= |slots|
    ensures i < |slots| ==> LiveAs(slots[i], name)
    ensures forall j :: 0 <= j < i ==> !LiveAs(slots[j], name)
  {
    if slots == [] || LiveAs(slots[0], name) then 0 else 1 + FirstNamed(slots[1..], name)
  }

  /** How an operation ends. A crash is the death of the process inside it, with the table
      lock held; an overrun is a name copied over what lies behind the slot. */
  datatype Status = Done | Failed | Crashed | Overrun

  /** The table and the view of the calling process after an operation, and how it ended. After
      an overrun nothing is known of the table. */
  datatype Outcome = Outcome(slots: seq<Slot>, view: View, status: Status)

  function Reserve(slots: seq<Slot>, v: View, name: Name, size: nat): Outcome
    requires |v.cache| == |slots|
  {
    var i := FirstFree(slots);
    if i == |slots| then Outcome(slots, v, Failed)
    else if |name| >= MAX_NAME_BYTES then Outcome(slots, v, Overrun)
    else
      var slot := Slot(slots[i].counter + 1, size, name, Init(slots[i].arena, size, false));
      Outcome(slots[i := slot], View(v.cache[i := true], v.names.Added(name, i)), Done)
  }

  function Link(slots: seq<Slot>, v: View, name: Name): Outcome
    requires |v.cache| == |slots|
  {
    var i := FirstNamed(slots, name);
    if i == |slots| || v.cache[i] then Outcome(slots, v, Failed)
    else
      var slot := slots[i].(counter := slots[i].counter + 1);
      Outcome(slots[i := slot], View(v.cache[i := true], v.names.Added(name, i)), Done)
  }

  /** The slot with one share less. */
  function Dropped(slot: Slot): Slot { slot.(counter := slot.counter - 1) }

  /** A slot without shares is cleared, except for its arena. */
  function Cleared(slot: Slot): Slot {
    if slot.counter <= 0 then Slot(0, 0, [], Init(slot.arena, 0, false)) else slot
  }

  /** The share and the cached block go first, then the name; when removing the name
      dereferences NULL the process dies there, and the slot is not cleared. */
  function Unlink(slots: seq<Slot>, v: View, name: Name): Outcome
    requires |v.cache| == |slots|
  {
    var i := FirstNamed(slots, name);
    if i == |slots| then Outcome(slots, v, Failed)
    else if v.names.Outcome(name).NullDereference? then
      Outcome(slots[i := Dropped(slots[i])], v.(cache := v.cache[i := false]), Crashed)
    else
      Outcome(slots[i := Cleared(Dropped(slots[i]))], View(v.cache[i := false], v.names.Removed(name)), Done)
  }

  /** The slot a process has under a name, or the number of slots. */
  function SlotNamed(slots: seq<Slot>, v: View, name: Name): (i: nat)
    ensures i <= |slots|
  {
    if name in v.names.index && v.names.index[name] < |slots| then v.names.index[name] else |slots|
  }

  /** An access session works on a copy of the arena whose data pointer is set. */
  function Access(slots: seq<Slot>, v: View, name: Name): Option<Arena> {
    var i := SlotNamed(slots, v, name);
    if i < |slots| then Some(slots[i].arena.(hasData := true)) else None
  }

  /** At its end the copy goes back to the table, without the data pointer. */
  function StopAccess(slots: seq<Slot>, v: View, name: Name, arena: Arena): seq<Slot> {
    var i := SlotNamed(slots, v, name);
    if i < |slots| then slots[i := slots[i].(arena := arena.(hasData := false))] else slots
  }

  ghost function ChainKeys(chains: seq<seq<Entry<nat>>>): (r: seq<seq<Name>>)
    ensures |r| == |chains|
    ensures forall b :: 0 <= b < |chains| ==> r[b] == Keys(chains[b])
  {
    seq(|chains|, b requires 0 <= b < |chains| => Keys(chains[b]))
  }

  /** The names of a hash table whose chains changed in one bucket. */
  lemma ChainKeysUpdate(chains: seq<seq<Entry<nat>>>, b: nat, chain: seq<Entry<nat>>)
    requires b < |chains|
    ensures ChainKeys(chains[b := chain]) == ChainKeys(chains)[b := Keys(chain)]
  {
  }

  lemma KeysAdded(e: Entry<nat>, chain: seq<Entry<nat>>)
    ensures Keys([e] + chain) == [e.key] + Keys(chain)
  {
  }

  lemma KeysRemoved(chain: seq<Entry<nat>>, i: nat)
    requires i < |chain|
    ensures Keys(chain[..i] + chain[i + 1..]) == Keys(chain)[..i] + Keys(chain)[i + 1..]
  {
  }

  /** The table in shared memory and the caches of one process, updated in place. */
  class Process {
    const table: array<Slot>
    const cache: array<bool>
    const cacheMap: Table<nat>

    ghost predicate Valid()
      reads this, cacheMap, cacheMap.table, cacheMap.entries
    {
      && table.Length == MAX_SLOTS == cache.Length
      && cacheMap.Valid()
      && forall name :: name in cacheMap.model ==> cacheMap.model[name] < MAX_SLOTS
    }

    ghost function TheNames(): Names
      reads cacheMap
      requires cacheMap.chains != []
    {
      NameMap(cacheMap.hash, ChainKeys(cacheMap.chains), cacheMap.model)
    }

    ghost function TheView(): View
      reads this, cache, cacheMap, cacheMap.table, cacheMap.entries
      requires Valid()
    {
      View(cache[..], TheNames())
    }

    constructor (table: array<Slot>, hash: Name -> nat)
      requires table.Length == MAX_SLOTS
      ensures Valid() && this.table == table && fresh(cache) && fresh(cacheMap) && fresh(cacheMap.table)
      ensures TheView() == View(seq(MAX_SLOTS, _ => false), NameMap(hash, seq(MAX_SLOTS, _ => []), map[]))
    {
      this.table := table;
      cacheMap := new Table(MAX_SLOTS, hash);
      cache := new bool[MAX_SLOTS](_ => false);
    }

    /** HashString_add on the cache map. */
    method CacheName(name: Name, i: nat)
      requires Valid() && i < MAX_SLOTS
      modifies cacheMap, cacheMap.table
      ensures Valid() && TheNames() == old(TheNames()).Added(name, i)
    {
      ghost var b, was := cacheMap.Bucket(name), cacheMap.chains;
      var added := cacheMap.Add(name, i);
      if added {
        KeysAdded(cacheMap.chains[b][0], was[b]);
        ChainKeysUpdate(was, b, cacheMap.chains[b]);
      }
    }

    /** HashString_remove on the cache map. */
    method UncacheName(name: Name) returns (result: RemoveResult)
      requires Valid()
      modifies cacheMap, cacheMap.table, cacheMap.entries
      ensures Valid() && TheNames() == old(TheNames()).Removed(name)
      ensures result == old(TheNames()).Outcome(name)
    {
      ghost var b, was := cacheMap.Bucket(name), cacheMap.chains;
      PlaceIsIndex(was[b], name);
      result := cacheMap.Remove(name);
      if result == RemoveResult.Removed {
        var i := IndexOf(was[b], name);
        KeysRemoved(was[b], i);
        ChainKeysUpdate(was, b, was[b][..i] + was[b][i + 1..]);
      }
    }

    /** wimp_data_reserve; after an overrun nothing is promised. */
    method DataReserve(name: Name, size: nat) returns (status: Status)
      requires Valid()
      modifies table, cache, cacheMap, cacheMap.table
      ensures status == Reserve(old(table[..]), old(TheView()), name, size).status
      ensures status != Overrun ==>
                Valid() && Outcome(table[..], TheView(), status) == Reserve(old(table[..]), old(TheView()), name, size)
    {
      var i := 0;
      while i < table.Length
        invariant 0 <= i <= table.Length
        invariant i <= FirstFree(table[..])
      {
        if table[i].counter == 0 {
          if |name| >= MAX_NAME_BYTES {
            return Overrun;
          }
          cache[i] := true;
          CacheName(name, i);
          table[i] := Slot(table[i].counter + 1, size, name, Init(table[i].arena, size, false));
          return Done;
        }
        i := i + 1;
      }
      return Failed;
    }

    method DataLink(name: Name) returns (status: Status)
      requires Valid()
      modifies table, cache, cacheMap, cacheMap.table
      ensures Valid() && Outcome(table[..], TheView(), status) == Link(old(table[..]), old(TheView()), name)
    {
      var i := 0;
      while i < table.Length
        invariant 0 <= i <= table.Length
        invariant i <= FirstNamed(table[..], name)
      {
        if table[i].counter != 0 && table[i].name == name {
          if cache[i] {
            return Failed;
          }
          cache[i] := true;
          table[i] := table[i].(counter := table[i].counter + 1);
          CacheName(name, i);
          return Done;
        }
        i := i + 1;
      }
      return Failed;
    }

    /** wimp_data_unlink_from_data; `Crashed` is where the process dies. */
    method DataUnlink(name: Name) returns (status: Status)
      requires Valid()
      modifies table, cache, cacheMap, cacheMap.table, cacheMap.entries
      ensures Valid() && Outcome(table[..], TheView(), status) == Unlink(old(table[..]), old(TheView()), name)
    {
      var i := 0;
      while i < table.Length
        invariant 0 <= i <= table.Length
        invariant i <= FirstNamed(table[..], name)
      {
        if table[i].counter != 0 && table[i].name == name {
          status := UnlinkSlot(i, name);
          return;
        }
        i := i + 1;
      }
      return Failed;
    }

    /** The slot of the name is found. */
    method UnlinkSlot(i: nat, name: Name) returns (status: Status)
      requires Valid() && i < table.Length && i == FirstNamed(table[..], name)
      modifies table, cache, cacheMap, cacheMap.table, cacheMap.entries
      ensures Valid() && Outcome(table[..], TheView(), status) == Unlink(old(table[..]), old(TheView()), name)
    {
      ghost var slots, cached := table[..], cache[..];
      hide FirstNamed, NameMap.Removed, NameMap.Outcome, Table.Valid;
      table[i] := table[i].(counter := table[i].counter - 1);
      cache[i] := false;
      assert cache[..] == cached[i := false];
      var result := UncacheName(name);
      if result == NullDereference {
        assert table[..] == slots[i := Dropped(slots[i])];
        return Crashed;
      }
      if table[i].counter <= 0 {
        table[i] := Slot(0, 0, [], Init(table[i].arena, 0, false));
      }
      assert table[..] == slots[i := Cleared(Dropped(slots[i]))];
      return Done;
    }

    /** wimp_data_access: None is the failure. */
    method DataAccess(name: Name) returns (arena: Option<Arena>)
      requires Valid()
      ensures arena == Access(table[..], TheView(), name)
    {
      var entry := cacheMap.Find(name);
      if entry == null {
        return None;
      }
      return Some(table[entry.value].arena.(hasData := true));
    }

    /** wimp_data_stop_access */
    method DataStopAccess(arena: Arena, name: Name)
      requires Valid()
      modifies table
      ensures Valid() && table[..] == StopAccess(old(table[..]), old(TheView()), name, arena)
      ensures TheView() == old(TheView())
    {
      var entry := cacheMap.Find(name);
      if entry == null {
        return;
      }
      var i := entry.value;
      table[i] := table[i].(arena := arena.(hasData := false));
    }
  }
}
