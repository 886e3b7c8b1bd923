/** Runs on the shared data table that end where a user would not expect. */
module SharedExamples {
  import opened Bytes
  import opened SimpleArena
  import opened HashTable
  import opened SharedData
  import opened SharedRuns
  import opened SharedEffects

  const A: Name := [97]
  const B: Name := [98]

  /** A hash that puts every name in the first bucket. */
  function Colliding(name: Name): nat { 0 }

  function Cached(n: nat): (c: seq<bool>)
    requires n <= MAX_SLOTS
    ensures |c| == MAX_SLOTS && forall i :: 0 <= i < MAX_SLOTS ==> c[i] == (i < n)
  {
    seq(MAX_SLOTS, i => i < n)
  }

  /** The buckets of a cache map with all its names in the first one. */
  function Buckets(first: seq<Name>): (c: seq<seq<Name>>)
    ensures |c| == MAX_SLOTS && c[0] == first && forall b :: 0 < b < MAX_SLOTS ==> c[b] == []
  {
    seq(MAX_SLOTS, b => if b == 0 then first else [])
  }

  /** The slots of the table, all but the first ones fresh. */
  function Table(first: seq<Slot>): (slots: seq<Slot>)
    requires |first| <= MAX_SLOTS
    ensures |slots| == MAX_SLOTS
    ensures forall i :: 0 <= i < MAX_SLOTS ==> slots[i] == if i < |first| then first[i] else FRESH
  {
    first + seq(MAX_SLOTS - |first|, _ => FRESH)
  }

  function Uses(first: seq<nat>): (uses: seq<nat>)
    requires |first| <= MAX_SLOTS
    ensures |uses| == MAX_SLOTS
    ensures forall i :: 0 <= i < MAX_SLOTS ==> uses[i] == if i < |first| then first[i] else 0
  {
    first + seq(MAX_SLOTS - |first|, _ => 0)
  }

  function Caching(n: nat, names: seq<Name>, index: map<Name, nat>): View
    requires n <= MAX_SLOTS
  {
    View(Cached(n), NameMap(Colliding, Buckets(names), index))
  }

  const NOTHING: View := Caching(0, [], map[])

  /** Nobody has a slot open and nothing is allocated. */
  ghost function Idle(first: seq<Slot>, views: seq<View>, uses: seq<nat>): World
    requires |first| <= MAX_SLOTS && |uses| <= MAX_SLOTS
  {
    World(Table(first), views, seq(MAX_SLOTS, _ => None), seq(MAX_SLOTS, _ => []), Uses(uses), None)
  }

  /** A slot of ten bytes, linked once. */
  function Ten(name: Name): Slot { Slot(1, 10, name, Arena(0, 10, 0, false)) }

  lemma UnusedIsStart(views: seq<View>)
    requires forall p :: 0 <= p < |views| ==> views[p] == NOTHING
    ensures Start(Idle([], views, []))
  {
  }

  /** Process 0 reserves A in an unused table. */
  lemma ReserveA(others: seq<View>)
    requires forall p :: 0 <= p < |others| ==> others[p] == NOTHING
    ensures var w, e := Idle([], [NOTHING] + others, []), DoReserve(0, A, 10);
            && Sizes(w) && Enabled(w, e)
            && Step(w, e) == Idle([Ten(A)], [Caching(1, [A], map[A := 0])] + others, [1])
  {
    var w, e := Idle([], [NOTHING] + others, []), DoReserve(0, A, 10);
    assert FirstFree(w.slots) == 0 && FirstNamed(w.slots, A) == MAX_SLOTS;
    hide FirstFree, FirstNamed;
    assert NOTHING.names.Added(A, 0) == NameMap(Colliding, Buckets([A]), map[A := 0]) by {
      assert Buckets([])[0 := [A]] == Buckets([A]);
      assert [A] + [] == [A];
    }
    assert Cached(0)[0 := true] == Cached(1);
    assert w.slots[0 := Ten(A)] == Table([Ten(A)]);
    assert w.uses[0 := 1] == Uses([1]);
    assert w.views[0 := Caching(1, [A], map[A := 0])] == [Caching(1, [A], map[A := 0])] + others;
  }

  const A_CACHED: View := Caching(1, [A], map[A := 0])
  const BOTH_CACHED: View := Caching(2, [B, A], map[A := 0, B := 1])

  /** And then B, whose name goes in front in the same bucket. */
  lemma ReserveB()
    ensures var w, e := Idle([Ten(A)], [A_CACHED], [1]), DoReserve(0, B, 10);
            && Sizes(w) && Enabled(w, e)
            && Step(w, e) == Idle([Ten(A), Ten(B)], [BOTH_CACHED], [1, 1])
  {
    var w, e := Idle([Ten(A)], [A_CACHED], [1]), DoReserve(0, B, 10);
    assert FirstFree(w.slots) == 1 && FirstNamed(w.slots, B) == MAX_SLOTS;
    hide FirstFree, FirstNamed;
    assert A_CACHED.names.Added(B, 1) == BOTH_CACHED.names by {
      assert Buckets([A])[0 := [B, A]] == Buckets([B, A]);
      assert [B] + [A] == [B, A];
    }
    assert Cached(1)[1 := true] == Cached(2);
    assert w.slots[1 := Ten(B)] == Table([Ten(A), Ten(B)]);
    assert w.uses[1 := 1] == Uses([1, 1]);
  }

  /** Now A is second in its chain, and unlinking it kills the process. */
  lemma UnlinkA()
    ensures var w, e := Idle([Ten(A), Ten(B)], [BOTH_CACHED], [1, 1]), DoUnlink(0, A);
            && Sizes(w) && Enabled(w, e)
            && Step(w, e).crashed == Some(0) && |Step(w, e).slots| == MAX_SLOTS
            && Step(w, e).slots[0] == Ten(A).(counter := 0)
  {
    var w := Idle([Ten(A), Ten(B)], [BOTH_CACHED], [1, 1]);
    assert LiveAs(w.slots[0], A);
    assert FirstNamed(w.slots, A) == 0;
    var chain := BOTH_CACHED.names.Chain(A);
    assert chain == [B, A];
    assert Place(chain, A) == 1;
  }

  lemma RunOfOne(w: World, e: Event)
    requires Sizes(w) && Enabled(w, e)
    ensures Run(w, [e], Step(w, e))
  {
    assert [e][1..] == [];
  }

  lemma IdleViews()
    ensures var w := Idle([Ten(A)], [A_CACHED, NOTHING], [1]);
            Sizes(w) && |w.views| == 2 && w.views[1] == NOTHING && |NOTHING.cache| == |w.slots|
  {
  }

  /** Two names in one bucket, and the older one is unlinked by the process that has it: the
      process dies with the table lock held, the counter at zero and the slot not cleared. */
  lemma OlderNameCrashes() returns (w: World)
    ensures Start(Idle([], [NOTHING], []))
    ensures Run(Idle([], [NOTHING], []), [DoReserve(0, A, 10), DoReserve(0, B, 10), DoUnlink(0, A)], w)
    ensures w.crashed == Some(0) && |w.slots| == MAX_SLOTS && w.slots[0] == Ten(A).(counter := 0)
  {
    hide Step, Enabled, Idle, Start;
    var w0, e, f, g := Idle([], [NOTHING], []), DoReserve(0, A, 10), DoReserve(0, B, 10), DoUnlink(0, A);
    UnusedIsStart([NOTHING]);
    assert [NOTHING] + [] == [NOTHING] && [A_CACHED] + [] == [A_CACHED];
    ReserveA([]);
    ReserveB();
    UnlinkA();
    RunOfThree(w0, e, f, g);
    w := Step(Step(Step(w0, e), f), g);
  }

  lemma StrangerUnlinks()
    ensures var slots := Table([Ten(A)]);
            && FirstNamed(slots, A) == 0
            && Unlink(slots, NOTHING, A) == Outcome(Table([FRESH.(arena := Arena(0, 10, 0, false))]), NOTHING, Done)
  {
    var slots := Table([Ten(A)]);
    assert LiveAs(slots[0], A);
    assert FirstNamed(slots, A) == 0;
    assert NOTHING.names.Chain(A) == [];
    assert Cached(0)[0 := false] == Cached(0);
    assert slots[0 := FRESH.(arena := Arena(0, 10, 0, false))] == Table([FRESH.(arena := Arena(0, 10, 0, false))]);
  }

  lemma OneHolder()
    ensures Holders([A_CACHED, NOTHING], 0) == 1
  {
    assert [A_CACHED, NOTHING][1..] == [NOTHING];
    assert Holders([NOTHING], 0) == Holders([NOTHING][1..], 0);
  }

  lemma AfterStranger()
    ensures var w := Idle([Ten(A)], [A_CACHED, NOTHING], [1]);
            var w' := Apply(w, 1, Unlink(w.slots, NOTHING, A));
            Sizes(w') && FirstFree(w'.slots) == 0 && w'.slots[0].counter == 0 && Holders(w'.views, 0) == 1
  {
    StrangerUnlinks();
    OneHolder();
    hide Unlink, Holders, FirstNamed;
    assert [A_CACHED, NOTHING][1 := NOTHING] == [A_CACHED, NOTHING];
  }

  /** A process unlinks what another one has linked: the counter is zero and the slot is
      handed out again, but the other process still has it linked. */
  lemma StrangerBreaksCounter() returns (w: World)
    ensures Start(Idle([], [NOTHING, NOTHING], []))
    ensures Run(Idle([], [NOTHING, NOTHING], []), [DoReserve(0, A, 10)], w)
    ensures w == Idle([Ten(A)], [A_CACHED, NOTHING], [1])
    ensures var w' := Apply(w, 1, Unlink(w.slots, w.views[1], A));
            Sizes(w') && FirstFree(w'.slots) == 0 && w'.slots[0].counter == 0 && Holders(w'.views, 0) == 1
  {
    var w0, e := Idle([], [NOTHING, NOTHING], []), DoReserve(0, A, 10);
    UnusedIsStart([NOTHING, NOTHING]);
    assert [NOTHING] + [NOTHING] == [NOTHING, NOTHING] && [A_CACHED] + [NOTHING] == [A_CACHED, NOTHING];
    ReserveA([NOTHING]);
    AfterStranger();
    IdleViews();
    hide *;
    w := Step(w0, e);
    RunOfOne(w0, e);
  }

  /** Releasing the only slot clears it, but not its arena. */
  lemma ReleaseA()
    ensures var w, e := Idle([Ten(A)], [A_CACHED], [1]), DoUnlink(0, A);
            && Sizes(w) && Enabled(w, e)
            && Step(w, e) == Idle([FRESH.(arena := Arena(0, 10, 0, false))], [NOTHING], [1])
  {
    var w := Idle([Ten(A)], [A_CACHED], [1]);
    assert LiveAs(w.slots[0], A);
    assert FirstNamed(w.slots, A) == 0;
    assert A_CACHED.names.Chain(A) == [A] && Place([A], A) == 0;
    assert A_CACHED.names.Removed(A) == NOTHING.names by {
      assert [A][..0] + [A][1..] == [];
      assert Buckets([A])[0 := []] == Buckets([]);
      assert map[A := 0] - {A} == map[];
    }
    assert Cached(1)[0 := false] == Cached(0);
    assert w.slots[0 := FRESH.(arena := Arena(0, 10, 0, false))] == Table([FRESH.(arena := Arena(0, 10, 0, false))]);
  }

  /** A slot reserved with 10 bytes, released, and reserved again with 20 has a capacity of 10. */
  lemma SecondUseKeepsTen() returns (w: World)
    ensures Start(Idle([], [NOTHING], []))
    ensures Run(Idle([], [NOTHING], []), [DoReserve(0, A, 10), DoUnlink(0, A), DoReserve(0, B, 20)], w)
    ensures |w.slots| == MAX_SLOTS && w.slots[0] == Slot(1, 20, B, Arena(0, 10, 0, false))
  {
    var w0, e, f, g := Idle([], [NOTHING], []), DoReserve(0, A, 10), DoUnlink(0, A), DoReserve(0, B, 20);
    UnusedIsStart([NOTHING]);
    assert [NOTHING] + [] == [NOTHING] && [A_CACHED] + [] == [A_CACHED];
    ReserveA([]);
    ReleaseA();
    ReserveAgain();
    hide Step, Enabled, Idle, Start;
    RunOfThree(w0, e, f, g);
    w := Step(Step(Step(w0, e), f), g);
  }

  lemma ReserveAgain()
    ensures var w, e := Idle([FRESH.(arena := Arena(0, 10, 0, false))], [NOTHING], [1]), DoReserve(0, B, 20);
            && Sizes(w) && Enabled(w, e) && |Step(w, e).slots| == MAX_SLOTS
            && Step(w, e).slots[0] == Slot(1, 20, B, Arena(0, 10, 0, false))
  {
    var w := Idle([FRESH.(arena := Arena(0, 10, 0, false))], [NOTHING], [1]);
    assert FirstFree(w.slots) == 0 && FirstNamed(w.slots, B) == MAX_SLOTS;
  }
}
