/** What the operations on shared data answer, and what they change and leave alone. */
module SharedEffects {
  import opened Bytes
  import opened SimpleArena
  import opened HashTable
  import opened SharedData
  import opened SharedRuns

  /** No live slot has the name. */
  ghost predicate NotLive(slots: seq<Slot>, name: Name) {
    forall i :: 0 <= i < |slots| && slots[i].counter != 0 ==> slots[i].name != name
  }

  /** Only slot i of the table may differ. */
  ghost predicate SameSlotsBut(a: seq<Slot>, b: seq<Slot>, i: nat) {
    |a| == |b| && forall j :: 0 <= j < |a| && j != i ==> a[j] == b[j]
  }

  /** The process has slot i linked and finds it by name; apart from that its view is as before. */
  ghost predicate Gained(v: View, v': View, i: nat, name: Name) {
    && |v.cache| == |v'.cache| && i < |v.cache| && v'.cache[i]
    && (forall j :: 0 <= j < |v.cache| && j != i ==> v'.cache[j] == v.cache[j])
    && name in v'.names.index && v'.names.index[name] == i
    && (forall n :: n != name ==> (n in v'.names.index <==> n in v.names.index))
    && (forall n :: n != name && n in v.names.index ==> v'.names.index[n] == v.names.index[n])
  }

  /** Linking succeeds exactly when a live slot has the name and the process has not linked it. */
  lemma LinkAnswers(w: World, p: nat, name: Name)
    requires Inv(w) && p < |w.views| && w.crashed != Some(p)
    ensures var o := Link(w.slots, w.views[p], name);
            && (o.status == Done || o.status == Failed)
            && (o.status == Failed <==>
                  NotLive(w.slots, name)
                  || exists i :: 0 <= i < |w.slots| && w.slots[i].counter != 0 && w.slots[i].name == name && w.views[p].cache[i])
            && (o.status == Failed ==> o.slots == w.slots && o.view == w.views[p])
  {
    var i := FirstNamed(w.slots, name);
    hide FirstNamed;
    if NotLive(w.slots, name) {
      assert i < |w.slots| ==> LiveAs(w.slots[i], name);
    } else {
      var k :| 0 <= k < |w.slots| && w.slots[k].counter != 0 && w.slots[k].name == name;
      LiveIsFirst(w.slots, name, k);
    }
    forall k | 0 <= k < |w.slots| && w.slots[k].counter != 0 && w.slots[k].name == name ensures k == i {
      LiveIsFirst(w.slots, name, k);
    }
  }

  /** And then the counter of the slot is one more, and the process has the slot. */
  lemma LinkLinks(w: World, p: nat, name: Name, i: nat)
    requires Inv(w) && p < |w.views| && w.crashed != Some(p)
    requires i < |w.slots| && w.slots[i].counter != 0 && w.slots[i].name == name && !w.views[p].cache[i]
    ensures var o := Link(w.slots, w.views[p], name);
            && o.status == Done
            && SameSlotsBut(w.slots, o.slots, i)
            && o.slots[i] == Slot(w.slots[i].counter + 1, w.slots[i].size, name, w.slots[i].arena)
            && Gained(w.views[p], o.view, i, name)
  {
    LiveIsFirst(w.slots, name, i);
    NotInIndex(w, p, name);
  }

  /** Reserving succeeds exactly when a slot is free and the name fits. */
  lemma ReserveAnswers(w: World, p: nat, name: Name, size: nat)
    requires Inv(w) && p < |w.views| && w.crashed != Some(p)
    ensures var o := Reserve(w.slots, w.views[p], name, size);
            && (o.status == Failed <==> forall i :: 0 <= i < |w.slots| ==> w.slots[i].counter != 0)
            && (o.status == Overrun <==>
                  |name| >= 64 && exists i :: 0 <= i < |w.slots| && w.slots[i].counter == 0)
            && (o.status == Done || o.status == Failed || o.status == Overrun)
            && (o.status == Failed ==> o.slots == w.slots && o.view == w.views[p])
  {
    hide FirstFree;
    var i := FirstFree(w.slots);
  }

  /** And then the first free slot has the name and the size and is linked once, by this process. */
  lemma ReserveReserves(w: World, p: nat, name: Name, size: nat, i: nat)
    requires Inv(w) && p < |w.views| && w.crashed != Some(p) && |name| < 64 && NotLive(w.slots, name)
    requires i < |w.slots| && w.slots[i].counter == 0 && forall j :: 0 <= j < i ==> w.slots[j].counter != 0
    ensures var o := Reserve(w.slots, w.views[p], name, size);
            && o.status == Done
            && SameSlotsBut(w.slots, o.slots, i)
            && o.slots[i].counter == 1 && o.slots[i].size == size && o.slots[i].name == name
            && (w.uses[i] == 0 ==> o.slots[i].arena == Arena(0, size, 0, false))
            && Gained(w.views[p], o.view, i, name)
  {
    hide FirstNamed;
    assert FirstFree(w.slots) == i;
    assert FirstNamed(w.slots, name) < |w.slots| ==> LiveAs(w.slots[FirstNamed(w.slots, name)], name);
    assert ArenaOk(w, i);
    NotInIndex(w, p, name);
  }

  /** Unlinking a name that no live slot has changes nothing. */
  lemma UnlinkAnswers(w: World, p: nat, name: Name)
    requires Inv(w) && p < |w.views|
    ensures var o := Unlink(w.slots, w.views[p], name);
            && (o.status == Failed <==> NotLive(w.slots, name))
            && (o.status == Failed ==> o.slots == w.slots && o.view == w.views[p])
  {
    hide FirstNamed;
    var i := FirstNamed(w.slots, name);
    assert i < |w.slots| ==> LiveAs(w.slots[i], name);
    if !NotLive(w.slots, name) {
      var k :| 0 <= k < |w.slots| && w.slots[k].counter != 0 && w.slots[k].name == name;
      LiveIsFirst(w.slots, name, k);
    }
  }

  /** When a process that has the slot linked unlinks it and lives, the slot has one share less,
      and is cleared but for its arena when that was the last; the process no longer has it. */
  lemma UnlinkUnlinks(w: World, p: nat, name: Name, i: nat)
    requires Inv(w) && p < |w.views| && w.crashed != Some(p)
    requires i < |w.slots| && w.slots[i].counter != 0 && w.slots[i].name == name && w.views[p].cache[i]
    requires Place(w.views[p].names.Chain(name), name) != 1
    ensures var o := Unlink(w.slots, w.views[p], name);
            var v, v' := w.views[p], o.view;
            && o.status == Done
            && SameSlotsBut(w.slots, o.slots, i)
            && (w.slots[i].counter > 1 ==> o.slots[i] == w.slots[i].(counter := w.slots[i].counter - 1))
            && (w.slots[i].counter == 1 ==>
                  o.slots[i].counter == 0 && o.slots[i].size == 0 && o.slots[i].name == []
                  && (w.slots[i].arena.capacity != 0 ==> o.slots[i].arena == w.slots[i].arena))
            && v'.cache == v.cache[i := false] && v'.names.index == v.names.index - {name}
  {
    LiveIsFirst(w.slots, name, i);
    UnlinkCompletes(w, p, name);
    HolderCounts(w.views, i, p);
    assert CountOk(w, i);
  }

  /** A process gets at the data of a name exactly when it has a slot of that name linked; what
      it gets is the arena of the slot with its data pointer set. */
  lemma AccessAnswers(w: World, p: nat, name: Name)
    requires Inv(w) && p < |w.views| && w.crashed != Some(p)
    ensures Access(w.slots, w.views[p], name) == None <==>
            forall i :: 0 <= i < |w.slots| && w.views[p].cache[i] ==> w.slots[i].name != name
    ensures forall i :: 0 <= i < |w.slots| && w.views[p].cache[i] && w.slots[i].name == name ==>
              var a := w.slots[i].arena;
              Access(w.slots, w.views[p], name) == Some(Arena(a.size, a.capacity, a.pointer, true))
  {
    assert ViewOk(w.slots, w.views[p]);
    hide MapOk, ArenaOk, SessionOk, CountOk, NamesOk;
  }

  /** Ending the session puts the arena back, without its data pointer, and nothing else. */
  lemma StopAccessWrites(w: World, p: nat, name: Name, arena: Arena, i: nat)
    requires Inv(w) && p < |w.views| && w.crashed != Some(p)
    requires i < |w.slots| && w.views[p].cache[i] && w.slots[i].name == name
    ensures var slots := StopAccess(w.slots, w.views[p], name, arena);
            && SameSlotsBut(w.slots, slots, i)
            && slots[i] == Slot(w.slots[i].counter, w.slots[i].size, name,
                                Arena(arena.size, arena.capacity, arena.pointer, false))
  {
    assert ViewOk(w.slots, w.views[p]);
    hide MapOk, ArenaOk, SessionOk, CountOk, NamesOk;
  }

  /** How many steps of a run reserve slot i. */
  ghost function Reservations(w: World, events: seq<Event>, i: nat): nat
    decreases |events|
  {
    if events == [] || !Sizes(w) || !Enabled(w, events[0]) then 0
    else
      var e := events[0];
      var takes := e.DoReserve? && i < |w.slots| && w.slots[i].counter == 0
                   && forall j :: 0 <= j < i ==> w.slots[j].counter != 0;
      (if takes then 1 else 0) + Reservations(Step(w, e), events[1..], i)
  }

  /** A slot has been used as often as it was reserved. */
  lemma {:induction false} UsesAreReservations(w: World, events: seq<Event>, w': World, i: nat)
    requires Run(w, events, w') && Inv(w) && i < |w.slots|
    ensures |w'.uses| == |w.uses| == |w.slots| && w'.uses[i] == w.uses[i] + Reservations(w, events, i)
    decreases |events|
  {
    if events != [] {
      StepKeepsInv(w, events[0]);
      UsesStep(w, events[0], i);
      UsesAreReservations(Step(w, events[0]), events[1..], w', i);
    }
  }

  lemma UsesStep(w: World, e: Event, i: nat)
    requires Sizes(w) && Enabled(w, e) && i < |w.slots|
    ensures |Step(w, e).uses| == |w.uses| && |Step(w, e).slots| == |w.slots|
    ensures Step(w, e).uses[i] == w.uses[i]
              + if e.DoReserve? && w.slots[i].counter == 0 && (forall j :: 0 <= j < i ==> w.slots[j].counter != 0) then 1 else 0
  {
    hide NameMap.Added, NameMap.Removed, NameMap.Outcome, FirstFree, FirstNamed;
    var k := FirstFree(w.slots);
  }

  /** On the first use of a slot all its allocations, in whatever sessions, lie within the size
      it was reserved with. */
  lemma FirstUseFits(w: World, events: seq<Event>, w': World, i: nat, k: nat)
    requires Start(w) && Run(w, events, w') && i < |w.slots| && Reservations(w, events, i) == 1
    requires Sizes(w') && i < |w'.slots| && w'.slots[i].counter != 0 && k < |w'.stretches[i]|
    ensures w'.stretches[i][k].start + w'.stretches[i][k].size <= w'.slots[i].size
  {
    StartIsOk(w);
    UsesAreReservations(w, events, w', i);
    RunKeepsInv(w, events, w');
    assert ArenaOk(w', i) && SessionOk(w', i);
    PackedBelow(w'.stretches[i], ArenaNow(w', i).pointer, k);
  }

  /** After any run the size and the pointer of an arena are the bytes handed out. */
  lemma SizeIsTotal(w: World, events: seq<Event>, w': World, i: nat)
    requires Start(w) && Run(w, events, w') && i < |w'.slots|
    ensures Sizes(w') && ArenaNow(w', i).size == ArenaNow(w', i).pointer == Total(w'.stretches[i])
  {
    StartIsOk(w);
    RunKeepsInv(w, events, w');
    assert ArenaOk(w', i);
    TotalIsPointer(w'.stretches[i], ArenaNow(w', i).pointer);
  }

  /** A step of one process leaves what the others have linked alone. */
  lemma OthersKeepTheirs(w: World, e: Event, q: nat)
    requires Sizes(w) && Enabled(w, e) && q < |w.views| && q != e.p
    ensures |Step(w, e).views| == |w.views| && Step(w, e).views[q] == w.views[q]
  {
    hide FirstFree, FirstNamed, NameMap.Added, NameMap.Removed, NameMap.Outcome;
  }

  /** A session of process p on slot i, with this arena. */
  ghost function Opened(w: World, p: nat, i: nat, arena: Arena): World
    requires i < |w.sessions|
  {
    w.(sessions := w.sessions[i := Some(Session(p, arena))])
  }

  lemma SessionOpens(w: World, p: nat, name: Name, i: nat)
    requires Sizes(w) && p < |w.views| && w.crashed != Some(p) && SlotOf(w, p, name) == i < |w.slots|
    requires w.sessions[i] == None
    ensures Enabled(w, DoAccess(p, name))
    ensures var w' := Opened(w, p, i, w.slots[i].arena.(hasData := true));
            Step(w, DoAccess(p, name)) == w' && Sizes(w') && SlotOf(w', p, name) == i
  {
  }

  lemma SessionAllocates(w: World, p: nat, name: Name, i: nat, a: Arena, n: nat)
    requires Sizes(w) && p < |w.views| && w.crashed != Some(p) && SlotOf(w, p, name) == i < |w.slots|
    requires w.sessions[i] == Some(Session(p, a))
    requires a.size == a.pointer && a.pointer + n < a.capacity < TWO_64
    ensures Enabled(w, DoAlloc(p, name, n))
    ensures var w' := Opened(w, p, i, Arena(a.size + n, a.capacity, a.pointer + n, a.hasData))
                      .(stretches := w.stretches[i := w.stretches[i] + [Stretch(a.pointer, n)]]);
            Step(w, DoAlloc(p, name, n)) == w' && Sizes(w') && SlotOf(w', p, name) == i
  {
  }

  lemma SessionCloses(w: World, p: nat, name: Name, i: nat, a: Arena)
    requires Sizes(w) && p < |w.views| && w.crashed != Some(p) && SlotOf(w, p, name) == i < |w.slots|
    requires w.sessions[i] == Some(Session(p, a))
    ensures Enabled(w, DoStop(p, name))
    ensures Step(w, DoStop(p, name))
         == w.(sessions := w.sessions[i := None], slots := w.slots[i := w.slots[i].(arena := a.(hasData := false))])
  {
  }

  lemma RunOfThree(w: World, e: Event, f: Event, g: Event)
    requires Sizes(w) && Enabled(w, e)
    requires Sizes(Step(w, e)) && Enabled(Step(w, e), f)
    requires var w' := Step(Step(w, e), f); Sizes(w') && Enabled(w', g)
    ensures Run(w, [e, f, g], Step(Step(Step(w, e), f), g))
  {
    hide Step, Enabled, Sizes;
    var w' := Step(w, e);
    assert [e, f, g][1..] == [f, g] && [f, g][1..] == [g] && [g][1..] == [];
    assert Run(Step(w', f), [g], Step(Step(w', f), g));
    assert Run(w', [f, g], Step(Step(w', f), g));
  }

  /** A process that has a slot linked which nobody has open can open it, allocate what fits, and
      close it again: the allocation is the next stretch, the arena in the table has moved on by
      it, and nothing else has changed. */
  lemma OneSession(w: World, p: nat, name: Name, i: nat, n: nat) returns (w': World)
    requires Inv(w) && p < |w.views| && w.crashed != Some(p)
    requires i < |w.slots| && w.views[p].cache[i] && w.slots[i].name == name && w.sessions[i] == None
    requires w.slots[i].arena.pointer + n < w.slots[i].arena.capacity < TWO_64
    ensures Run(w, [DoAccess(p, name), DoAlloc(p, name, n), DoStop(p, name)], w')
    ensures var a := w.slots[i].arena;
            w' == w.(slots := w.slots[i := w.slots[i].(arena := Arena(a.size + n, a.capacity, a.pointer + n, false))],
                     stretches := w.stretches[i := w.stretches[i] + [Stretch(a.pointer, n)]])
  {
    assert ViewOk(w.slots, w.views[p]) && ArenaOk(w, i);
    assert SlotOf(w, p, name) == i;
    var a := w.slots[i].arena;
    hide Enabled, Step, Run, Inv, ViewOk, ArenaOk, Packed, SlotOf, Sizes;
    var e, f, g := DoAccess(p, name), DoAlloc(p, name, n), DoStop(p, name);
    SessionOpens(w, p, name, i);
    SessionAllocates(Step(w, e), p, name, i, a.(hasData := true), n);
    SessionCloses(Step(Step(w, e), f), p, name, i, Arena(a.size + n, a.capacity, a.pointer + n, true));
    RunOfThree(w, e, f, g);
    w' := Step(Step(Step(w, e), f), g);
    assert w'.sessions == w.sessions;
  }
}
