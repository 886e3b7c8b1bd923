/** The triple-mutex priority lock of an instruction queue, as an interleaving of any number
    of low and high priority threads. One step is one mutex operation of one thread. */
module PriorityLock {
  import opened Bytes

  datatype Kind = Low | High

  /** Where a thread is: idle, about to lock one of the three mutexes, about to unlock the next
      mutex, in the critical section, or about to unlock the low mutex. */
  datatype PC = Idle | WantLow | WantNext | WantData | DropNext | Critical | DropLow

  /** The thread positions and the owner of each mutex. */
  datatype State = State(pcs: seq<PC>, low: Option<nat>, next: Option<nat>, data: Option<nat>)

  ghost predicate Start(kinds: seq<Kind>, s: State) {
    && |s.pcs| == |kinds| && s.low == s.next == s.data == None
    && forall t :: 0 <= t < |s.pcs| ==> s.pcs[t] == Idle
  }

  /** A thread can move unless the mutex it is about to lock is taken. */
  predicate Enabled(s: State, t: nat)
    requires t < |s.pcs|
  {
    match s.pcs[t]
    case WantLow => s.low == None
    case WantNext => s.next == None
    case WantData => s.data == None
    case _ => true
  }

  /** One mutex operation; leaving Idle is the call of the lock function. */
  function Step(kinds: seq<Kind>, s: State, t: nat): State
    requires |s.pcs| == |kinds| && t < |s.pcs| && Enabled(s, t)
  {
    var at := (pc: PC) => s.pcs[t := pc];
    match s.pcs[t]
    case Idle => s.(pcs := at(if kinds[t] == Low then WantLow else WantNext))
    case WantLow => s.(pcs := at(WantNext), low := Some(t))
    case WantNext => s.(pcs := at(WantData), next := Some(t))
    case WantData => s.(pcs := at(DropNext), data := Some(t))
    case DropNext => s.(pcs := at(Critical), next := None)
    case Critical => s.(pcs := at(if kinds[t] == Low then DropLow else Idle), data := None)
    case DropLow => s.(pcs := at(Idle), low := None)
  }

  /** The schedule only moves threads that can move. */
  ghost predicate Follows(kinds: seq<Kind>, s: State, schedule: seq<nat>)
    requires |s.pcs| == |kinds|
    decreases |schedule|
  {
    schedule == [] ||
    (schedule[0] < |s.pcs| && Enabled(s, schedule[0])
     && Follows(kinds, Step(kinds, s, schedule[0]), schedule[1..]))
  }

  ghost function Run(kinds: seq<Kind>, s: State, schedule: seq<nat>): (r: State)
    requires |s.pcs| == |kinds| && Follows(kinds, s, schedule)
    ensures |r.pcs| == |kinds|
    decreases |schedule|
  {
    if schedule == [] then s else Run(kinds, Step(kinds, s, schedule[0]), schedule[1..])
  }

  predicate PastLow(pc: PC) { pc in {WantNext, WantData, DropNext, Critical, DropLow} }
  predicate HasNext(pc: PC) { pc in {WantData, DropNext} }
  predicate HasData(pc: PC) { pc in {DropNext, Critical} }

  /** The thread owns exactly the mutexes that its position says. */
  ghost predicate ThreadOk(kind: Kind, s: State, t: nat)
    requires t < |s.pcs|
  {
    && (s.low == Some(t) <==> kind == Low && PastLow(s.pcs[t]))
    && (s.next == Some(t) <==> HasNext(s.pcs[t]))
    && (s.data == Some(t) <==> HasData(s.pcs[t]))
    && (kind == High ==> s.pcs[t] != WantLow && s.pcs[t] != DropLow)
  }

  /** A mutex is owned exactly by the thread whose position says so. */
  ghost predicate Inv(kinds: seq<Kind>, s: State) {
    && |s.pcs| == |kinds|
    && (s.low.Some? ==> s.low.value < |s.pcs|)
    && (s.next.Some? ==> s.next.value < |s.pcs|)
    && (s.data.Some? ==> s.data.value < |s.pcs|)
    && forall t {:trigger s.pcs[t]} :: 0 <= t < |s.pcs| ==> ThreadOk(kinds[t], s, t)
  }

  lemma StepKeepsInv(kinds: seq<Kind>, s: State, t: nat)
    requires Inv(kinds, s) && t < |s.pcs| && Enabled(s, t)
    ensures Inv(kinds, Step(kinds, s, t))
  {
    var s' := Step(kinds, s, t);
    assert ThreadOk(kinds[t], s, t);
    forall u | 0 <= u < |s.pcs| ensures ThreadOk(kinds[u], s', u) {
      assert ThreadOk(kinds[u], s, u);
      assert u != t ==> s'.pcs[u] == s.pcs[u];
    }
  }

  lemma {:induction false} RunKeepsInv(kinds: seq<Kind>, s: State, schedule: seq<nat>)
    requires Inv(kinds, s) && Follows(kinds, s, schedule)
    ensures Inv(kinds, Run(kinds, s, schedule))
    decreases |schedule|
  {
    if schedule != [] {
      StepKeepsInv(kinds, s, schedule[0]);
      RunKeepsInv(kinds, Step(kinds, s, schedule[0]), schedule[1..]);
    }
  }

  /** Whatever the interleaving: at most one thread holds the queue, and at most one low
      priority thread is past the low mutex. */
  lemma MutualExclusion(kinds: seq<Kind>, s: State, schedule: seq<nat>, t: nat, u: nat)
    requires Start(kinds, s) && Follows(kinds, s, schedule) && t < |kinds| && u < |kinds|
    ensures var r := Run(kinds, s, schedule);
            && (HasData(r.pcs[t]) && HasData(r.pcs[u]) ==> t == u)
            && (kinds[t] == Low && kinds[u] == Low && PastLow(r.pcs[t]) && PastLow(r.pcs[u]) ==> t == u)
  {
    forall v | 0 <= v < |s.pcs| ensures ThreadOk(kinds[v], s, v) {
      assert s.pcs[v] == Idle;
    }
    RunKeepsInv(kinds, s, schedule);
  }

  /** Some thread that is not idle can always move. */
  lemma NoDeadlock(kinds: seq<Kind>, s: State, busy: nat) returns (t: nat)
    requires Inv(kinds, s) && busy < |kinds| && s.pcs[busy] != Idle
    ensures t < |kinds| && s.pcs[t] != Idle && Enabled(s, t)
  {
    // Follow the chain of owners: whoever holds the data mutex can move.
    t := busy;
    if !Enabled(s, t) && s.pcs[t] == WantLow {
      t := s.low.value;
    }
    if !Enabled(s, t) && s.pcs[t] == WantNext {
      t := s.next.value;
    }
    if !Enabled(s, t) {
      t := s.data.value;
    }
  }

  /** The mutex operations a thread still has to do before it is idle again. */
  function Left(kind: Kind, pc: PC): nat {
    match pc
    case Idle => 0
    case WantLow => 6
    case WantNext => if kind == Low then 5 else 4
    case WantData => if kind == Low then 4 else 3
    case DropNext => if kind == Low then 3 else 2
    case Critical => if kind == Low then 2 else 1
    case DropLow => 1
  }

  ghost function Work(kinds: seq<Kind>, pcs: seq<PC>): nat
    requires |kinds| == |pcs|
  {
    if pcs == [] then 0 else Left(kinds[0], pcs[0]) + Work(kinds[1..], pcs[1..])
  }

  lemma {:induction false} WorkOfUpdate(kinds: seq<Kind>, pcs: seq<PC>, t: nat, pc: PC)
    requires |kinds| == |pcs| && t < |pcs|
    ensures Work(kinds, pcs[t := pc]) == Work(kinds, pcs) - Left(kinds[t], pcs[t]) + Left(kinds[t], pc)
    decreases |pcs|
  {
    if t > 0 {
      WorkOfUpdate(kinds[1..], pcs[1..], t - 1, pc);
      assert pcs[t := pc][1..] == pcs[1..][t - 1 := pc];
    } else {
      assert pcs[t := pc][1..] == pcs[1..];
    }
  }

  /** No thread calls the lock function during the schedule. */
  ghost predicate NoCalls(kinds: seq<Kind>, s: State, schedule: seq<nat>)
    requires |s.pcs| == |kinds| && Follows(kinds, s, schedule)
    decreases |schedule|
  {
    schedule == [] ||
    (s.pcs[schedule[0]] != Idle && NoCalls(kinds, Step(kinds, s, schedule[0]), schedule[1..]))
  }

  /** Every operation brings the threads closer to being idle, so however they are scheduled
      they all get through, after exactly the operations they still had to do. */
  lemma {:induction false} EveryoneGetsThrough(kinds: seq<Kind>, s: State, schedule: seq<nat>)
    requires Inv(kinds, s) && Follows(kinds, s, schedule) && NoCalls(kinds, s, schedule)
    ensures var r := Run(kinds, s, schedule);
            && |schedule| + Work(kinds, r.pcs) == Work(kinds, s.pcs)
            && ((forall t :: 0 <= t < |kinds| && r.pcs[t] != Idle ==> !Enabled(r, t)) ==>
                  forall t :: 0 <= t < |kinds| ==> r.pcs[t] == Idle)
    decreases |schedule|
  {
    if schedule == [] {
      if exists busy :: 0 <= busy < |kinds| && s.pcs[busy] != Idle {
        var busy :| 0 <= busy < |kinds| && s.pcs[busy] != Idle;
        var t := NoDeadlock(kinds, s, busy);
      }
    } else {
      var t := schedule[0];
      StepKeepsInv(kinds, s, t);
      var s' := Step(kinds, s, t);
      WorkOfUpdate(kinds, s.pcs, t, s'.pcs[t]);
      EveryoneGetsThrough(kinds, s', schedule[1..]);
    }
  }

  /** Once a thread holds the next mutex, no other thread can take the data mutex before it. */
  lemma {:induction false} NobodyOvertakes(kinds: seq<Kind>, s: State, schedule: seq<nat>, h: nat, t: nat)
    requires Inv(kinds, s) && Follows(kinds, s, schedule)
    requires h < |kinds| && s.pcs[h] == WantData && h !in schedule
    requires t < |kinds| && t != h && !HasData(s.pcs[t])
    ensures Run(kinds, s, schedule).pcs[h] == WantData
    ensures !HasData(Run(kinds, s, schedule).pcs[t])
    decreases |schedule|
  {
    if schedule != [] {
      var u := schedule[0];
      StepKeepsInv(kinds, s, u);
      assert s.next == Some(h);
      NobodyOvertakes(kinds, Step(kinds, s, u), schedule[1..], h, t);
    }
  }

  /** A thread that is still in front of the next mutex when h takes it waits for h, even if
      it was there first and whatever its priority. */
  lemma NextMutexDecides(kinds: seq<Kind>, s: State, schedule: seq<nat>, h: nat, t: nat)
    requires Inv(kinds, s) && h < |kinds| && s.pcs[h] == WantNext && Enabled(s, h)
    requires Follows(kinds, Step(kinds, s, h), schedule) && h !in schedule
    requires t < |kinds| && t != h && !HasData(s.pcs[t])
    ensures !HasData(Run(kinds, Step(kinds, s, h), schedule).pcs[t])
  {
    StepKeepsInv(kinds, s, h);
    NobodyOvertakes(kinds, Step(kinds, s, h), schedule, h, t);
  }

  /** A thread in the critical section does not hold the next mutex: if nobody is waiting with
      it, a high priority thread can take it then, and enters before any other that is still in
      front of it. */
  lemma HighWaitsInFront(kinds: seq<Kind>, s: State, schedule: seq<nat>, inside: nat, h: nat, t: nat)
    requires Inv(kinds, s) && inside < |kinds| && s.pcs[inside] == Critical
    requires h < |kinds| && kinds[h] == High && s.pcs[h] == Idle
    requires forall u :: 0 <= u < |kinds| ==> s.pcs[u] != WantData && s.pcs[u] != DropNext
    requires t < |kinds| && t != h && t != inside && h !in schedule
    requires var s' := Step(kinds, s, h); Enabled(s', h) ==> Follows(kinds, Step(kinds, s', h), schedule)
    ensures var s' := Step(kinds, s, h);
            Enabled(s', h) && !HasData(Run(kinds, Step(kinds, s', h), schedule).pcs[t])
  {
    StepKeepsInv(kinds, s, h);
    var s' := Step(kinds, s, h);
    assert s.next.Some? ==> HasNext(s.pcs[s.next.value]);
    assert s.data == Some(inside);
    NextMutexDecides(kinds, s', schedule, h, t);
  }
}
