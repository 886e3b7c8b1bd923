/** Runs of many processes on the shared data table. Each operation on the table happens under
    the table lock, and each access session under the lock of its slot. A process that dies
    inside an operation keeps the locks it holds. */
module SharedRuns {
  import opened Bytes
  import opened SimpleArena
  import opened HashTable
  import opened SharedData

  /** An access session: who has the slot, and its copy of the arena. */
  datatype Session = Session(process: nat, arena: Arena)

  /** `stretches` are the allocations made in each slot so far and `uses` counts how often it
      was reserved. `crashed` is the process that has died with the table lock held. */
  datatype World = World(slots: seq<Slot>, views: seq<View>, sessions: seq<Option<Session>>,
                         stretches: seq<seq<Stretch>>, uses: seq<nat>, crashed: Option<nat>)

  datatype Event =
    | DoReserve(p: nat, name: Name, size: nat)
    | DoLink(p: nat, name: Name)
    | DoUnlink(p: nat, name: Name)
    | DoAccess(p: nat, name: Name)
    | DoAlloc(p: nat, name: Name, n: nat)
    | DoStop(p: nat, name: Name)

  ghost predicate Sizes(w: World) {
    && |w.slots| == |w.sessions| == |w.stretches| == |w.uses|
    && forall p :: 0 <= p < |w.views| ==> |w.views[p].cache| == |w.slots|
  }

  /** The slot a process has under a name, if any. */
  ghost function SlotOf(w: World, p: nat, name: Name): (i: nat)
    requires Sizes(w) && p < |w.views|
    ensures i <= |w.slots|
  {
    SlotNamed(w.slots, w.views[p], name)
  }

  /** Names of live slots are distinct, processes unlink only what they hold and do not access,
      and an allocation does not wrap around. A dead process does nothing, and nobody gets the
      table lock from it. */
  ghost predicate Enabled(w: World, e: Event)
    requires Sizes(w)
  {
    && e.p < |w.views| && w.crashed != Some(e.p)
    && (e.DoReserve? || e.DoLink? || e.DoUnlink? ==> w.crashed == None)
    && match e
       case DoReserve(p, name, size) => FirstNamed(w.slots, name) == |w.slots| && |name| < MAX_NAME_BYTES
       case DoLink(p, name) => true
       case DoUnlink(p, name) =>
         var i := FirstNamed(w.slots, name);
         i < |w.slots| ==> w.views[p].cache[i] && (w.sessions[i].Some? ==> w.sessions[i].value.process != p)
       case DoAccess(p, name) => SlotOf(w, p, name) < |w.slots| && w.sessions[SlotOf(w, p, name)] == None
       case DoAlloc(p, name, n) => InSession(w, p, name) && w.sessions[SlotOf(w, p, name)].value.arena.pointer + n < TWO_64
       case DoStop(p, name) => InSession(w, p, name)
  }

  ghost predicate InSession(w: World, p: nat, name: Name)
    requires Sizes(w) && p < |w.views|
  {
    var i := SlotOf(w, p, name);
    i < |w.slots| && w.sessions[i].Some? && w.sessions[i].value.process == p
  }

  /** The effect of a table operation of process p on the world. */
  ghost function Apply(w: World, p: nat, o: Outcome): World
    requires p < |w.views|
  {
    w.(slots := o.slots, views := w.views[p := o.view],
       crashed := if o.status == Crashed then Some(p) else w.crashed)
  }

  ghost function Step(w: World, e: Event): World
    requires Sizes(w) && Enabled(w, e)
  {
    match e
    case DoReserve(p, name, size) =>
      var i := FirstFree(w.slots);
      var w' := Apply(w, p, Reserve(w.slots, w.views[p], name, size));
      if i < |w.slots| then w'.(uses := w.uses[i := w.uses[i] + 1]) else w'
    case DoLink(p, name) => Apply(w, p, Link(w.slots, w.views[p], name))
    case DoUnlink(p, name) => Apply(w, p, Unlink(w.slots, w.views[p], name))
    case DoAccess(p, name) =>
      var i := SlotOf(w, p, name);
      w.(sessions := w.sessions[i := Some(Session(p, Access(w.slots, w.views[p], name).value))])
    case DoAlloc(p, name, n) =>
      var i := SlotOf(w, p, name);
      var (arena, r) := Alloc(w.sessions[i].value.arena, n);
      w.(sessions := w.sessions[i := Some(Session(p, arena))],
         stretches := if r.Allocated? then w.stretches[i := w.stretches[i] + [Stretch(r.start, n)]] else w.stretches)
    case DoStop(p, name) =>
      var i := SlotOf(w, p, name);
      w.(sessions := w.sessions[i := None],
         slots := StopAccess(w.slots, w.views[p], name, w.sessions[i].value.arena))
  }

  /** How many processes have slot i in their cache. */
  ghost function Holders(views: seq<View>, i: nat): nat
    requires forall p :: 0 <= p < |views| ==> i < |views[p].cache|
  {
    if views == [] then 0 else (if views[0].cache[i] then 1 else 0) + Holders(views[1..], i)
  }

  lemma {:induction false} HoldersUpdate(views: seq<View>, i: nat, p: nat, v: View)
    requires forall q :: 0 <= q < |views| ==> i < |views[q].cache|
    requires p < |views| && i < |v.cache|
    ensures Holders(views[p := v], i)
         == Holders(views, i) - (if views[p].cache[i] then 1 else 0) + (if v.cache[i] then 1 else 0)
    decreases |views|
  {
    if p > 0 {
      HoldersUpdate(views[1..], i, p - 1, v);
      assert views[p := v][1..] == views[1..][p - 1 := v];
    } else {
      assert views[p := v][1..] == views[1..];
    }
  }

  lemma {:induction false} HolderCounts(views: seq<View>, i: nat, p: nat)
    requires forall q :: 0 <= q < |views| ==> i < |views[q].cache|
    requires p < |views| && views[p].cache[i]
    ensures Holders(views, i) > 0
    decreases |views|
  {
    if p > 0 {
      HolderCounts(views[1..], i, p - 1);
    }
  }

  /** The share counter is the number of processes that have the slot linked. */
  ghost predicate CountOk(w: World, i: nat)
    requires Sizes(w) && i < |w.slots|
  {
    w.slots[i].counter == Holders(w.views, i)
  }

  ghost predicate NamesOk(slots: seq<Slot>) {
    forall i, j :: 0 <= i < j < |slots| && slots[i].counter != 0 && slots[j].counter != 0 ==>
      slots[i].name != slots[j].name
  }

  /** The cache map of a process leads exactly to the slots it has linked. */
  ghost predicate ViewOk(slots: seq<Slot>, v: View)
    requires |v.cache| == |slots|
  {
    var index := v.names.index;
    && (forall name :: name in index ==>
          index[name] < |slots| && v.cache[index[name]] && slots[index[name]].name == name)
    && (forall i :: 0 <= i < |slots| && v.cache[i] ==> slots[i].name in index && index[slots[i].name] == i)
  }

  ghost predicate Unique(names: seq<Name>) {
    forall i, j :: 0 <= i < j < |names| ==> names[i] != names[j]
  }

  /** The buckets of a cache map hold exactly its names, each once. */
  ghost predicate MapOk(m: Names) {
    && (forall name :: name in m.index <==> name in m.Chain(name))
    && (forall b :: 0 <= b < |m.chains| ==> Unique(m.chains[b]))
  }

  lemma AddedIsOk(m: Names, name: Name, i: nat)
    requires MapOk(m)
    ensures MapOk(m.Added(name, i))
  {
    var m' := m.Added(name, i);
    assert name !in m.index ==> Unique([name] + m.Chain(name));
    forall n ensures n in m'.index <==> n in m'.Chain(n) {
      assert n in m.index <==> n in m.Chain(n);
    }
  }

  lemma RemovedIsOk(m: Names, name: Name)
    requires MapOk(m)
    ensures MapOk(m.Removed(name))
  {
    var m' := m.Removed(name);
    var chain, i := m.Chain(name), Place(m.Chain(name), name);
    if m.Outcome(name).Removed? {
      var shorter := chain[..i] + chain[i + 1..];
      assert Unique(chain);
      forall n ensures n in shorter <==> n in chain && n != name {
        RestOfChain(chain, i, n);
      }
      assert Unique(shorter);
      forall n ensures n in m'.index <==> n in m'.Chain(n) {
        assert n in m.index <==> n in m.Chain(n);
      }
    }
  }

  lemma RestOfChain(chain: seq<Name>, i: nat, n: Name)
    requires Unique(chain) && i < |chain|
    ensures n in chain[..i] + chain[i + 1..] <==> n in chain && n != chain[i]
  {
    var shorter := chain[..i] + chain[i + 1..];
    if n in chain && n != chain[i] {
      var k :| 0 <= k < |chain| && chain[k] == n;
      assert shorter[if k < i then k else k - 1] == n;
    }
  }

  /** A session belongs to a process that has the slot linked. */
  ghost predicate SessionOk(w: World, i: nat)
    requires Sizes(w) && i < |w.slots|
  {
    w.sessions[i].Some? ==>
      var s := w.sessions[i].value;
      s.process < |w.views| && w.views[s.process].cache[i] && s.arena.capacity == w.slots[i].arena.capacity
  }

  /** The arena as it stands: the copy of a session, or the one in the table. */
  ghost function ArenaNow(w: World, i: nat): Arena
    requires Sizes(w) && i < |w.slots|
  {
    if w.sessions[i].Some? then w.sessions[i].value.arena else w.slots[i].arena
  }

  /** Allocations lie one behind the other in front of the pointer, the pointer stays within
      the capacity, the size is where the pointer is, and on the first use of a slot the capacity
      is the reserved size. */
  ghost predicate ArenaOk(w: World, i: nat)
    requires Sizes(w) && i < |w.slots|
  {
    var a := ArenaNow(w, i);
    && Packed(w.stretches[i], a.pointer) && a.pointer <= a.capacity && a.size == a.pointer
    && !w.slots[i].arena.hasData
    && (w.uses[i] == 0 ==> w.slots[i].counter == 0 && w.slots[i].arena == EMPTY)
    && (w.uses[i] == 1 && w.slots[i].counter != 0 ==> a.capacity == w.slots[i].size)
  }

  ghost predicate Inv(w: World) {
    && Sizes(w)
    && (forall i :: 0 <= i < |w.slots| ==> CountOk(w, i))
    && NamesOk(w.slots)
    && (forall p :: 0 <= p < |w.views| && w.crashed != Some(p) ==> ViewOk(w.slots, w.views[p]))
    && (forall p :: 0 <= p < |w.views| ==> MapOk(w.views[p].names))
    && (forall i :: 0 <= i < |w.slots| ==> SessionOk(w, i))
    && (forall i :: 0 <= i < |w.slots| ==> ArenaOk(w, i))
  }

  ghost predicate EmptyMap(m: Names) {
    m.index == map[] && forall b :: 0 <= b < |m.chains| ==> m.chains[b] == []
  }

  /** All slots free and unused, nothing linked. */
  ghost predicate Start(w: World) {
    && Sizes(w) && w.crashed == None
    && (forall i :: 0 <= i < |w.slots| ==>
          w.slots[i] == FRESH && w.sessions[i] == None && w.stretches[i] == [] && w.uses[i] == 0)
    && (forall p :: 0 <= p < |w.views| ==>
          EmptyMap(w.views[p].names) && forall i :: 0 <= i < |w.slots| ==> !w.views[p].cache[i])
  }

  lemma {:induction false} NobodyHolds(views: seq<View>, i: nat)
    requires forall p :: 0 <= p < |views| ==> i < |views[p].cache| && !views[p].cache[i]
    ensures Holders(views, i) == 0
    decreases |views|
  {
    if views != [] {
      NobodyHolds(views[1..], i);
    }
  }

  lemma StartIsOk(w: World)
    requires Start(w)
    ensures Inv(w)
  {
    forall i | 0 <= i < |w.slots| ensures CountOk(w, i) {
      NobodyHolds(w.views, i);
    }
  }

  /** A table operation of process p that touches slot i, and in which p may die. */
  ghost function Touch(w: World, p: nat, i: nat, slot: Slot, v: View, uses: nat, dies: bool): (w': World)
    requires Sizes(w) && p < |w.views| && i < |w.slots| && |v.cache| == |w.slots|
    ensures Sizes(w')
  {
    w.(slots := w.slots[i := slot], views := w.views[p := v], uses := w.uses[i := uses],
       crashed := if dies then Some(p) else w.crashed)
  }

  /** The share count moves with the cache of p, which changes at i only. */
  ghost predicate Counted(w: World, p: nat, i: nat, slot: Slot, v: View)
    requires Sizes(w) && p < |w.views| && i < |w.slots|
  {
    && |v.cache| == |w.slots| && v.cache == w.views[p].cache[i := v.cache[i]]
    && slot.counter - w.slots[i].counter == (if v.cache[i] then 1 else 0) - (if w.views[p].cache[i] then 1 else 0)
  }

  /** A live slot has a name no other live slot has, and keeps it while it is live. */
  ghost predicate Named(slots: seq<Slot>, i: nat, slot: Slot)
    requires i < |slots|
  {
    && (slot.counter == 0 || slots[i].counter == 0 || slot.name == slots[i].name)
    && (slot.counter != 0 ==>
          forall j :: 0 <= j < |slots| && j != i && slots[j].counter != 0 ==> slot.name != slots[j].name)
  }

  lemma CountsFollow(w: World, p: nat, i: nat, slot: Slot, v: View, uses: nat, dies: bool, j: nat)
    requires Sizes(w) && p < |w.views| && i < |w.slots| && j < |w.slots|
    requires Counted(w, p, i, slot, v) && CountOk(w, j)
    ensures CountOk(Touch(w, p, i, slot, v, uses, dies), j)
  {
    HoldersUpdate(w.views, j, p, v);
  }

  /** Nobody has a slot with a zero counter linked. */
  lemma ZeroIsUnlinked(w: World, i: nat, p: nat)
    requires Sizes(w) && i < |w.slots| && CountOk(w, i) && w.slots[i].counter == 0 && p < |w.views|
    ensures !w.views[p].cache[i]
  {
    if w.views[p].cache[i] {
      HolderCounts(w.views, i, p);
    }
  }

  lemma OtherViewsKept(w: World, p: nat, i: nat, slot: Slot, v: View, uses: nat, q: nat)
    requires Inv(w) && w.crashed == None && p < |w.views| && i < |w.slots| && q < |w.views| && q != p
    requires Counted(w, p, i, slot, v) && Named(w.slots, i, slot)
    ensures ViewOk(w.slots[i := slot], w.views[q])
  {
    hide Holders;
    var w' := Touch(w, p, i, slot, v, uses, false);
    assert CountOk(w, i) && ViewOk(w.slots, w.views[q]);
    CountsFollow(w, p, i, slot, v, uses, false, i);
    assert w'.views[q] == w.views[q];
    if w.views[q].cache[i] {
      if w.slots[i].counter == 0 { ZeroIsUnlinked(w, i, q); }
      if slot.counter == 0 { ZeroIsUnlinked(w', i, q); }
    }
  }

  lemma TouchKeepsInv(w: World, p: nat, i: nat, slot: Slot, v: View, uses: nat, dies: bool)
    requires Inv(w) && w.crashed == None && p < |w.views| && i < |w.slots|
    requires Counted(w, p, i, slot, v) && Named(w.slots, i, slot) && MapOk(v.names)
    requires dies || ViewOk(w.slots[i := slot], v)
    requires SessionOk(Touch(w, p, i, slot, v, uses, dies), i) && ArenaOk(Touch(w, p, i, slot, v, uses, dies), i)
    ensures Inv(Touch(w, p, i, slot, v, uses, dies))
  {
    hide Holders, ViewOk, Packed, MapOk;
    var w' := Touch(w, p, i, slot, v, uses, dies);
    forall j | 0 <= j < |w.slots| ensures CountOk(w', j) {
      CountsFollow(w, p, i, slot, v, uses, dies, j);
    }
    forall j | 0 <= j < |w.slots| ensures SessionOk(w', j) && ArenaOk(w', j) {
      assert SessionOk(w, j) && ArenaOk(w, j);
    }
    forall q | 0 <= q < |w'.views| && w'.crashed != Some(q) ensures ViewOk(w'.slots, w'.views[q]) {
      if q != p { OtherViewsKept(w, p, i, slot, v, uses, q); }
    }
  }

  /** A free slot is linked by nobody, so no reservation hands out a linked one; and nobody
      has a session on it. */
  lemma FreeIsUnlinked(w: World, i: nat)
    requires Inv(w) && i < |w.slots| && w.slots[i].counter == 0
    ensures forall p :: 0 <= p < |w.views| ==> !w.views[p].cache[i]
    ensures w.sessions[i] == None
  {
    assert CountOk(w, i) && SessionOk(w, i);
    forall p | 0 <= p < |w.views| ensures !w.views[p].cache[i] {
      ZeroIsUnlinked(w, i, p);
    }
  }

  lemma LiveIsFirst(slots: seq<Slot>, name: Name, k: nat)
    requires NamesOk(slots) && k < |slots| && LiveAs(slots[k], name)
    ensures FirstNamed(slots, name) == k
  {
    var i := FirstNamed(slots, name);
    assert i <= k;
  }

  /** A name that no live slot has, or one that is not linked, is not in the cache map. */
  lemma NotInIndex(w: World, p: nat, name: Name)
    requires Inv(w) && p < |w.views| && w.crashed != Some(p)
    requires var i := FirstNamed(w.slots, name); i == |w.slots| || !w.views[p].cache[i]
    ensures name !in w.views[p].names.index
  {
    assert ViewOk(w.slots, w.views[p]);
    hide MapOk, SessionOk, ArenaOk, Holders, FirstNamed;
    if name in w.views[p].names.index {
      var k := w.views[p].names.index[name];
      HolderCounts(w.views, k, p);
      assert CountOk(w, k);
      LiveIsFirst(w.slots, name, k);
    }
  }

  lemma ReserveKeepsInv(w: World, e: Event)
    requires Inv(w) && e.DoReserve? && Enabled(w, e) && FirstFree(w.slots) < |w.slots|
    ensures Inv(Step(w, e))
  {
    hide Holders, FirstNamed, FirstFree, MapOk, Packed;
    var p, i := e.p, FirstFree(w.slots);
    var o := Reserve(w.slots, w.views[p], e.name, e.size);
    FreeIsUnlinked(w, i);
    NotInIndex(w, p, e.name);
    assert SessionOk(w, i) && ArenaOk(w, i) && CountOk(w, i) && ViewOk(w.slots, w.views[p]);
    assert Named(w.slots, i, o.slots[i]) by {
      forall j | 0 <= j < |w.slots| && j != i && w.slots[j].counter != 0 ensures e.name != w.slots[j].name {
        assert !LiveAs(w.slots[j], e.name);
      }
    }
    AddedIsOk(w.views[p].names, e.name, i);
    TouchKeepsInv(w, p, i, o.slots[i], o.view, w.uses[i] + 1, false);
  }

  lemma LinkKeepsInv(w: World, e: Event)
    requires Inv(w) && e.DoLink? && Enabled(w, e)
    ensures Inv(Step(w, e))
  {
    hide Holders, FirstNamed, MapOk, Packed;
    var p, i := e.p, FirstNamed(w.slots, e.name);
    var o := Link(w.slots, w.views[p], e.name);
    assert w.views[p := w.views[p]] == w.views;
    if i < |w.slots| && !w.views[p].cache[i] {
      NotInIndex(w, p, e.name);
      assert SessionOk(w, i) && ArenaOk(w, i) && CountOk(w, i) && ViewOk(w.slots, w.views[p]);
      assert w.uses == w.uses[i := w.uses[i]];
      AddedIsOk(w.views[p].names, e.name, i);
      TouchKeepsInv(w, p, i, o.slots[i], o.view, w.uses[i], false);
    }
  }

  /** For a process that has the slot linked, unlinking completes exactly when its name is not
      second in its chain of the cache map. Otherwise the process dies: the share is gone and
      the block is no longer cached, but the name stays cached and the slot is not cleared. */
  lemma UnlinkCompletes(w: World, p: nat, name: Name)
    requires Inv(w) && p < |w.views| && w.crashed != Some(p)
    requires FirstNamed(w.slots, name) < |w.slots| && w.views[p].cache[FirstNamed(w.slots, name)]
    ensures var i, v := FirstNamed(w.slots, name), w.views[p];
            var o := Unlink(w.slots, v, name);
            var second := Place(v.names.Chain(name), name) == 1;
            && o.status == (if second then Crashed else Done)
            && !o.view.cache[i]
            && name in v.names.index
            && o.view.names.index == (if second then v.names.index else v.names.index - {name})
            && (second ==> o.slots[i] == w.slots[i].(counter := w.slots[i].counter - 1))
  {
    hide FirstNamed, Place;
    var i, m := FirstNamed(w.slots, name), w.views[p].names;
    assert ViewOk(w.slots, w.views[p]) && MapOk(m);
    assert w.slots[i].name in m.index;
    var k :| 0 <= k < |m.Chain(name)| && m.Chain(name)[k] == name;
    assert Place(m.Chain(name), name) <= k;
  }

  lemma UnlinkedView(slots: seq<Slot>, v: View, i: nat, slot: Slot, v': View)
    requires |v.cache| == |slots| && ViewOk(slots, v) && i < |slots| && v.cache[i]
    requires v'.cache == v.cache[i := false] && v'.names.index == v.names.index - {slots[i].name}
    ensures ViewOk(slots[i := slot], v')
  {
  }

  lemma UnlinkTouches(w: World, e: Event)
    requires Sizes(w) && e.DoUnlink? && Enabled(w, e) && FirstNamed(w.slots, e.name) < |w.slots|
    ensures var i, o := FirstNamed(w.slots, e.name), Unlink(w.slots, w.views[e.p], e.name);
            && |o.view.cache| == |w.slots| && |o.slots| == |w.slots|
            && Step(w, e) == Touch(w, e.p, i, o.slots[i], o.view, w.uses[i], o.status == Crashed)
  {
    hide FirstNamed, NameMap.Outcome, NameMap.Removed;
    var i := FirstNamed(w.slots, e.name);
    assert w.uses == w.uses[i := w.uses[i]];
  }

  lemma UnlinkKeepsInv(w: World, e: Event)
    requires Inv(w) && e.DoUnlink? && Enabled(w, e) && FirstNamed(w.slots, e.name) < |w.slots|
    ensures Inv(Step(w, e))
  {
    var p, i := e.p, FirstNamed(w.slots, e.name);
    UnlinkCompletes(w, p, e.name);
    UnlinkTouches(w, e);
    hide Step, Holders, FirstNamed, Place, NameMap.Outcome, MapOk, Unique, Packed;
    var v := w.views[p];
    var o := Unlink(w.slots, v, e.name);
    RemovedIsOk(v.names, e.name);
    HolderCounts(w.views, i, p);
    assert SessionOk(w, i) && ArenaOk(w, i) && CountOk(w, i) && ViewOk(w.slots, v);
    if o.status == Done {
      UnlinkedView(w.slots, v, i, o.slots[i], o.view);
    }
    hide ViewOk, NameMap.Removed;
    TouchKeepsInv(w, p, i, o.slots[i], o.view, w.uses[i], o.status == Crashed);
  }

  /** A step of a session touches the arena of slot i, in the table or in the session. */
  ghost function Worked(w: World, i: nat, arena: Arena, session: Option<Session>, stretches: seq<Stretch>): (w': World)
    requires Sizes(w) && i < |w.slots|
    ensures Sizes(w')
  {
    w.(slots := w.slots[i := w.slots[i].(arena := arena)], sessions := w.sessions[i := session],
       stretches := w.stretches[i := stretches])
  }

  lemma WorkedKeepsInv(w: World, i: nat, arena: Arena, session: Option<Session>, stretches: seq<Stretch>)
    requires Inv(w) && i < |w.slots|
    requires SessionOk(Worked(w, i, arena, session, stretches), i) && ArenaOk(Worked(w, i, arena, session, stretches), i)
    ensures Inv(Worked(w, i, arena, session, stretches))
  {
    hide MapOk, Holders, Packed;
    var w' := Worked(w, i, arena, session, stretches);
    forall j | 0 <= j < |w.slots| ensures CountOk(w', j) && SessionOk(w', j) && ArenaOk(w', j) {
      assert CountOk(w, j) && SessionOk(w, j) && ArenaOk(w, j);
    }
    forall q | 0 <= q < |w.views| && w.crashed != Some(q) ensures ViewOk(w'.slots, w'.views[q]) {
      assert ViewOk(w.slots, w.views[q]);
    }
  }

  /** What is known of the slot of a session. */
  lemma SlotIsOk(w: World, p: nat, name: Name)
    requires Inv(w) && p < |w.views| && w.crashed != Some(p) && SlotOf(w, p, name) < |w.slots|
    ensures var i := SlotOf(w, p, name);
            SessionOk(w, i) && ArenaOk(w, i) && w.views[p].cache[i] && w.uses[i] != 0
  {
    hide MapOk, Holders, Packed;
    var i := SlotOf(w, p, name);
    assert ViewOk(w.slots, w.views[p]) && CountOk(w, i);
    HolderCounts(w.views, i, p);
  }

  lemma AccessKeepsInv(w: World, e: Event)
    requires Inv(w) && e.DoAccess? && Enabled(w, e)
    ensures Inv(Step(w, e))
  {
    SlotIsOk(w, e.p, e.name);
    hide Inv, Holders, Packed;
    var i := SlotOf(w, e.p, e.name);
    var session := Session(e.p, w.slots[i].arena.(hasData := true));
    assert Step(w, e) == Worked(w, i, w.slots[i].arena, Some(session), w.stretches[i]);
    WorkedKeepsInv(w, i, w.slots[i].arena, Some(session), w.stretches[i]);
  }

  /** The arena of a session after an allocation, and the stretches then. */
  lemma AllocatedIsOk(w: World, i: nat, p: nat, n: nat)
    requires Sizes(w) && i < |w.slots| && SessionOk(w, i) && ArenaOk(w, i) && w.uses[i] != 0
    requires w.sessions[i].Some? && w.sessions[i].value.process == p
    requires w.sessions[i].value.arena.pointer + n < TWO_64
    ensures var (arena, r) := Alloc(w.sessions[i].value.arena, n);
            var stretches := if r.Allocated? then w.stretches[i] + [Stretch(r.start, n)] else w.stretches[i];
            var w' := Worked(w, i, w.slots[i].arena, Some(Session(p, arena)), stretches);
            SessionOk(w', i) && ArenaOk(w', i)
  {
    AllocContinues(w.sessions[i].value.arena, n, w.stretches[i]);
    hide Packed;
  }

  lemma AllocKeepsInv(w: World, e: Event)
    requires Inv(w) && e.DoAlloc? && Enabled(w, e)
    ensures Inv(Step(w, e))
  {
    SlotIsOk(w, e.p, e.name);
    hide Inv, SessionOk, ArenaOk;
    var i := SlotOf(w, e.p, e.name);
    AllocatedIsOk(w, i, e.p, e.n);
    var (arena, r) := Alloc(w.sessions[i].value.arena, e.n);
    hide Alloc;
    var session := Session(e.p, arena);
    var stretches := if r.Allocated? then w.stretches[i] + [Stretch(r.start, e.n)] else w.stretches[i];
    assert Step(w, e) == Worked(w, i, w.slots[i].arena, Some(session), stretches);
    WorkedKeepsInv(w, i, w.slots[i].arena, Some(session), stretches);
  }

  lemma StopKeepsInv(w: World, e: Event)
    requires Inv(w) && e.DoStop? && Enabled(w, e)
    ensures Inv(Step(w, e))
  {
    SlotIsOk(w, e.p, e.name);
    hide Inv, Holders, Packed;
    var i := SlotOf(w, e.p, e.name);
    var arena := w.sessions[i].value.arena.(hasData := false);
    assert Step(w, e) == Worked(w, i, arena, None, w.stretches[i]);
    WorkedKeepsInv(w, i, arena, None, w.stretches[i]);
  }

  /** Every operation of every process keeps the invariant. */
  lemma StepKeepsInv(w: World, e: Event)
    requires Inv(w) && Enabled(w, e)
    ensures Inv(Step(w, e))
  {
    match e
    case DoReserve(p, name, size) =>
      if FirstFree(w.slots) < |w.slots| { ReserveKeepsInv(w, e); } else { assert Step(w, e) == w; }
    case DoLink(p, name) => LinkKeepsInv(w, e);
    case DoUnlink(p, name) =>
      if FirstNamed(w.slots, name) < |w.slots| { UnlinkKeepsInv(w, e); } else { assert Step(w, e) == w; }
    case DoAccess(_, _) => AccessKeepsInv(w, e);
    case DoAlloc(_, _, _) => AllocKeepsInv(w, e);
    case DoStop(_, _) => StopKeepsInv(w, e);
  }

  /** w leads to w' by the events, in this order. */
  ghost predicate Run(w: World, events: seq<Event>, w': World)
    decreases |events|
  {
    if events == [] then w == w'
    else Sizes(w) && Enabled(w, events[0]) && Run(Step(w, events[0]), events[1..], w')
  }

  /** Over every interleaving: each share counter is the number of processes that have the
      slot linked, live names are distinct, and each living process finds by name exactly the
      slots it has linked. */
  lemma {:induction false} RunKeepsInv(w: World, events: seq<Event>, w': World)
    requires Inv(w) && Run(w, events, w')
    ensures Inv(w')
    decreases |events|
  {
    if events != [] {
      StepKeepsInv(w, events[0]);
      RunKeepsInv(Step(w, events[0]), events[1..], w');
    }
  }

  lemma CountersCountHolders(w: World, events: seq<Event>, w': World, i: nat)
    requires Start(w) && Run(w, events, w') && i < |w'.slots|
    ensures Sizes(w') && w'.slots[i].counter == Holders(w'.views, i)
  {
    StartIsOk(w);
    RunKeepsInv(w, events, w');
    assert CountOk(w', i);
  }

  /** Allocations made in a slot, in whatever sessions, never overlap and stay within the
      capacity; on its first use that is the reserved size. */
  lemma AllocationsDisjoint(w: World, events: seq<Event>, w': World, i: nat, j: nat, k: nat)
    requires Start(w) && Run(w, events, w') && Sizes(w')
    requires i < |w'.slots| && j < k < |w'.stretches[i]|
    ensures var a, b := w'.stretches[i][j], w'.stretches[i][k];
            && a.start + a.size <= b.start
            && b.start + b.size <= w'.slots[i].arena.capacity
            && (w'.uses[i] == 1 && w'.slots[i].counter != 0 ==> b.start + b.size <= w'.slots[i].size)
  {
    StartIsOk(w);
    RunKeepsInv(w, events, w');
    assert ArenaOk(w', i) && SessionOk(w', i);
    PackedDisjoint(w'.stretches[i], ArenaNow(w', i).pointer, j, k);
  }

  /** The counter stays right exactly when the process that unlinks has the slot linked. */
  lemma UnlinkNeedsHolder(w: World, p: nat, name: Name)
    requires Inv(w) && p < |w.views| && FirstNamed(w.slots, name) < |w.slots|
    ensures var i := FirstNamed(w.slots, name);
            var w' := Apply(w, p, Unlink(w.slots, w.views[p], name));
            Sizes(w') && (CountOk(w', i) <==> w.views[p].cache[i])
  {
    var i := FirstNamed(w.slots, name);
    assert CountOk(w, i);
    HoldersUpdate(w.views, i, p, Unlink(w.slots, w.views[p], name).view);
  }

  lemma CrashedStep(w: World, e: Event)
    requires Sizes(w) && Enabled(w, e) && w.crashed.Some?
    ensures var w' := Step(w, e);
            && w'.crashed == w.crashed && w'.views == w.views && w'.uses == w.uses && |w'.slots| == |w.slots|
            && forall i :: 0 <= i < |w.slots| ==> w'.slots[i] == w.slots[i].(arena := w'.slots[i].arena)
  {
  }

  /** Once a process has died in the table, no slot is reserved, linked or unlinked again. */
  lemma {:induction false} CrashEndsSharing(w: World, events: seq<Event>, w': World)
    requires Inv(w) && Run(w, events, w') && w.crashed.Some?
    ensures w'.views == w.views && w'.uses == w.uses && |w'.slots| == |w.slots|
    ensures forall i :: 0 <= i < |w.slots| ==> w'.slots[i] == w.slots[i].(arena := w'.slots[i].arena)
    decreases |events|
  {
    if events != [] {
      StepKeepsInv(w, events[0]);
      CrashedStep(w, events[0]);
      hide Step, Enabled, Inv;
      CrashEndsSharing(Step(w, events[0]), events[1..], w');
    }
  }

  /** A slot that is reserved again keeps its old arena: it has the capacity asked for exactly
      when the slot had none before, or the same one. */
  lemma ReuseKeepsCapacity(w: World, e: Event)
    requires Inv(w) && e.DoReserve? && Enabled(w, e) && FirstFree(w.slots) < |w.slots|
    ensures var i := FirstFree(w.slots);
            && Step(w, e).slots[i].size == e.size
            && Step(w, e).slots[i].arena.pointer == w.slots[i].arena.pointer
            && (Step(w, e).slots[i].arena.capacity == e.size <==>
                  w.slots[i].arena.capacity == 0 || w.slots[i].arena.capacity == e.size)
  {
    assert ArenaOk(w, FirstFree(w.slots));
  }
}
