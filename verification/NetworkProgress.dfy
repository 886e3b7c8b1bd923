/** Runs of the tree come to an end: without new instructions only so many steps are possible,
    and when none is left, everything has arrived. */
module NetworkProgress {
  import opened Bytes
  import opened Routing
  import opened Network

  /** Where an instruction can be on its way. */
  datatype Place = Out(p: Name) | Into(p: Name) | Link(p: Name, q: Name)

  ghost function Queued(s: State, x: Place): seq<Msg> {
    match x
    case Out(p) => At(s.outgoing, p)
    case Into(p) => At(s.incoming, p)
    case Link(p, q) => At(s.links, (p, q))
  }

  ghost function Places(net: Net): set<Place> {
    (set p | p in net.processes :: Out(p)) + (set p | p in net.processes :: Into(p))
    + (set p, q | p in net.processes && q in net.processes :: Link(p, q))
  }

  ghost function RankAt(net: Net, p: Name, dst: Name): nat {
    if p in net.depth then net.Rank(p, dst) else 0
  }

  /** No fewer than the steps an instruction can still make from here. */
  ghost function Cost(net: Net, x: Place, m: Msg): nat {
    match x
    case Out(p) => 3 * RankAt(net, p, m.dst)
    case Into(p) => 3 * RankAt(net, p, m.dst) + 1
    case Link(_, q) => 3 * RankAt(net, q, m.dst) + 2
  }

  ghost function CostAll(net: Net, x: Place, ms: seq<Msg>): nat {
    if ms == [] then 0 else Cost(net, x, ms[0]) + CostAll(net, x, ms[1..])
  }

  lemma {:induction false} CostOfPush(net: Net, x: Place, ms: seq<Msg>, m: Msg)
    ensures CostAll(net, x, ms + [m]) == CostAll(net, x, ms) + Cost(net, x, m)
    decreases |ms|
  {
    if ms != [] {
      assert (ms + [m])[1..] == ms[1..] + [m];
      CostOfPush(net, x, ms[1..], m);
    }
  }

  ghost function Work(net: Net, s: State, xs: set<Place>): nat {
    if xs == {} then 0
    else
      var x :| x in xs;
      CostAll(net, x, Queued(s, x)) + Work(net, s, xs - {x})
  }

  /** Any place may be counted first. */
  lemma {:induction false} WorkOf(net: Net, s: State, xs: set<Place>, x: Place)
    requires x in xs
    ensures Work(net, s, xs) == CostAll(net, x, Queued(s, x)) + Work(net, s, xs - {x})
    decreases |xs|
  {
    hide CostAll, Queued;
    var y :| y in xs && Work(net, s, xs) == CostAll(net, y, Queued(s, y)) + Work(net, s, xs - {y});
    if y != x {
      WorkOf(net, s, xs - {y}, x);
      WorkOf(net, s, xs - {x}, y);
      assert xs - {y} - {x} == xs - {x} - {y};
    }
  }

  lemma {:induction false} WorkSame(net: Net, s: State, s': State, xs: set<Place>)
    requires forall x :: x in xs ==> Queued(s, x) == Queued(s', x)
    ensures Work(net, s, xs) == Work(net, s', xs)
    decreases |xs|
  {
    if xs != {} {
      var x :| x in xs;
      WorkOf(net, s, xs, x);
      WorkOf(net, s', xs, x);
      WorkSame(net, s, s', xs - {x});
    }
  }

  /** The front of one queue leaves, and perhaps goes to the back of another where it costs
      less; nothing else changes. */
  ghost predicate Moves(net: Net, s: State, s': State, x: Place, to': Place) {
    && Queued(s, x) != [] && Queued(s', x) == Queued(s, x)[1..] && to' != x
    && (forall z :: z != x && z != to' ==> Queued(s', z) == Queued(s, z))
    && var m := Queued(s, x)[0];
       || (Queued(s', to') == Queued(s, to') && Cost(net, x, m) > 0)
       || (Queued(s', to') == Queued(s, to') + [m] && Cost(net, to', m) < Cost(net, x, m))
  }

  lemma MovingWorks(net: Net, s: State, s': State, x: Place, y: Place)
    requires Moves(net, s, s', x, y) && x in Places(net) && y in Places(net)
    ensures Work(net, s', Places(net)) < Work(net, s, Places(net))
  {
    hide Places, Queued, Cost, Work;
    var xs := Places(net);
    WorkOf(net, s, xs, x);
    WorkOf(net, s', xs, x);
    WorkOf(net, s, xs - {x}, y);
    WorkOf(net, s', xs - {x}, y);
    WorkSame(net, s, s', xs - {x} - {y});
    CostOfPush(net, y, Queued(s, y), Queued(s, x)[0]);
  }

  lemma AtPush<K>(queues: map<K, seq<Msg>>, k: K, m: Msg)
    ensures forall j :: At(Push(queues, k, m), j) == if j == k then At(queues, k) + [m] else At(queues, j)
  {
  }

  lemma AtDrop<K>(queues: map<K, seq<Msg>>, k: K)
    requires At(queues, k) != []
    ensures forall j :: At(Drop(queues, k), j) == if j == k then At(queues, k)[1..] else At(queues, j)
  {
  }

  lemma SendOn(net: Net, s: State, p: Name)
    requires net.Valid() && Placed(net, s) && Enabled(net, s, Send(p))
    requires net.HopFrom(p, At(s.outgoing, p)[0].dst).To?
    ensures var q := net.HopFrom(p, At(s.outgoing, p)[0].dst).next;
            q in net.processes && Moves(net, s, Step(net, s, Send(p)), Out(p), Link(p, q))
  {
    hide OnRoute, At, Push, Drop, Placed;
    var m := At(s.outgoing, p)[0];
    AtDrop(s.outgoing, p);
    net.HopDescends(p, m.dst);
    hide Net.HopFrom;
    AtPush(s.links, (p, net.HopFrom(p, m.dst).next), m);
  }

  lemma SendEnds(net: Net, s: State, p: Name)
    requires net.Valid() && Placed(net, s) && Enabled(net, s, Send(p))
    requires !net.HopFrom(p, At(s.outgoing, p)[0].dst).To?
    ensures Moves(net, s, Step(net, s, Send(p)), Out(p), Into(p))
  {
    hide OnRoute, At, Push, Drop;
    assert MayBeOutgoing(net, p, At(s.outgoing, p)[0]);
    AtDrop(s.outgoing, p);
    hide Placed;
  }

  lemma SendWorks(net: Net, s: State, p: Name)
    requires net.Valid() && Placed(net, s) && Enabled(net, s, Send(p))
    ensures Work(net, Step(net, s, Send(p)), Places(net)) < Work(net, s, Places(net))
  {
    hide Work, Moves, Step, Placed, Net.HopFrom;
    var hop := net.HopFrom(p, At(s.outgoing, p)[0].dst);
    if hop.To? {
      SendOn(net, s, p);
      MovingWorks(net, s, Step(net, s, Send(p)), Out(p), Link(p, hop.next));
    } else {
      SendEnds(net, s, p);
      MovingWorks(net, s, Step(net, s, Send(p)), Out(p), Into(p));
    }
  }

  lemma RecieveWorks(net: Net, s: State, p: Name, q: Name)
    requires net.Valid() && Placed(net, s) && Enabled(net, s, Recieve(p, q))
    ensures Work(net, Step(net, s, Recieve(p, q)), Places(net)) < Work(net, s, Places(net))
  {
    hide Work, OnRoute, At, Push, Drop;
    var m, s' := At(s.links, (p, q))[0], Step(net, s, Recieve(p, q));
    AtDrop(s.links, (p, q));
    AtPush(s.incoming, q, m);
    assert MayBeOnLink(net, p, q, m);
    net.HopDescends(p, m.dst);
    assert Moves(net, s, s', Link(p, q), Into(q));
    MovingWorks(net, s, s', Link(p, q), Into(q));
  }

  lemma TakeHands(net: Net, s: State, p: Name)
    requires Enabled(net, s, Take(p)) && At(s.incoming, p)[0].dst == p
    ensures Moves(net, s, Step(net, s, Take(p)), Into(p), Out(p))
  {
    hide At, Push, Drop;
    AtDrop(s.incoming, p);
  }

  lemma TakePasses(net: Net, s: State, p: Name)
    requires Enabled(net, s, Take(p)) && At(s.incoming, p)[0].dst != p
    ensures Moves(net, s, Step(net, s, Take(p)), Into(p), Out(p))
  {
    hide At, Push, Drop;
    AtDrop(s.incoming, p);
    AtPush(s.outgoing, p, At(s.incoming, p)[0]);
  }

  lemma TakeWorks(net: Net, s: State, p: Name)
    requires Enabled(net, s, Take(p))
    ensures Work(net, Step(net, s, Take(p)), Places(net)) < Work(net, s, Places(net))
  {
    if At(s.incoming, p)[0].dst == p {
      TakeHands(net, s, p);
    } else {
      TakePasses(net, s, p);
    }
    hide Work, Moves, Step;
    MovingWorks(net, s, Step(net, s, Take(p)), Into(p), Out(p));
  }

  /** An instruction that is added brings as much work as its way may be long. */
  lemma AddWorks(net: Net, s: State, e: Event, depth: nat)
    requires net.Valid() && e.Add? && Enabled(net, s, e)
    requires forall p :: p in net.processes ==> net.depth[p] <= depth
    ensures Work(net, Step(net, s, e), Places(net)) <= Work(net, s, Places(net)) + 3 * (depth + 1)
  {
    hide Work, Places, Push, At;
    var x, xs, s' := Out(e.src), Places(net), Step(net, s, e);
    var m := Msg(e.src, e.dst, e.exit, e.payload);
    InPlaces(net, e.src);
    AtPush(s.outgoing, e.src, m);
    WorkOf(net, s, xs, x);
    WorkOf(net, s', xs, x);
    WorkSame(net, s, s', xs - {x});
    CostOfPush(net, x, Queued(s, x), m);
  }

  lemma InPlaces(net: Net, p: Name)
    requires p in net.processes
    ensures Out(p) in Places(net)
  {
  }

  lemma MoveWorks(net: Net, s: State, e: Event)
    requires net.Valid() && Placed(net, s) && Enabled(net, s, e) && !e.Add?
    ensures Work(net, Step(net, s, e), Places(net)) < Work(net, s, Places(net))
  {
    hide Placed, Work, Places, Step, Enabled;
    match e
    case Send(p) => SendWorks(net, s, p);
    case Recieve(p, q) => RecieveWorks(net, s, p, q);
    case Take(p) => TakeWorks(net, s, p);
  }

  /** However instructions are added, sent, recieved and taken, in a tree of some depth there are
      at most 3 * depth + 4 steps for each instruction added. */
  lemma StepsPerInstruction(net: Net, events: seq<Event>, depth: nat)
    requires net.Valid() && Runs(net, START, events)
    requires forall p :: p in net.processes ==> net.depth[p] <= depth
    ensures |events| <= (3 * depth + 4) * |Run(net, START, events).added|
  {
    hide Placed, Work;
    PlacedAtStart(net);
    NoWorkAtStart(net, Places(net));
    StepsAndWork(net, START, events, depth);
  }

  lemma {:induction false} NoWorkAtStart(net: Net, xs: set<Place>)
    ensures Work(net, START, xs) == 0
    decreases |xs|
  {
    if xs != {} {
      var x :| x in xs;
      WorkOf(net, START, xs, x);
      NoWorkAtStart(net, xs - {x});
    }
  }

  lemma {:induction false} StepsAndWork(net: Net, s: State, events: seq<Event>, depth: nat)
    requires net.Valid() && Placed(net, s) && Runs(net, s, events)
    requires forall p :: p in net.processes ==> net.depth[p] <= depth
    ensures |Run(net, s, events).added| >= |s.added|
    ensures |events| + Work(net, Run(net, s, events), Places(net))
         <= Work(net, s, Places(net)) + (3 * depth + 4) * (|Run(net, s, events).added| - |s.added|)
    decreases |events|
  {
    hide Placed, Work, Places, Enabled;
    if events != [] {
      var e, s' := events[0], Step(net, s, events[0]);
      StepKeepsPlaced(net, s, e);
      if e.Add? {
        AddWorks(net, s, e, depth);
      } else {
        MoveWorks(net, s, e);
      }
      StepsAndWork(net, s', events[1..], depth);
      AddedByStep(net, s, e);
      hide Step;
      var d := |Run(net, s', events[1..]).added| - |s'.added|;
      assert e.Add? ==> (3 * depth + 4) * (d + 1) == (3 * depth + 4) * d + 3 * (depth + 1) + 1;
    }
  }

  lemma AddedByStep(net: Net, s: State, e: Event)
    requires Enabled(net, s, e)
    ensures |Step(net, s, e).added| == |s.added| + if e.Add? then 1 else 0
  {
  }

  ghost predicate NoAdds(events: seq<Event>) {
    forall k :: 0 <= k < |events| ==> !events[k].Add?
  }

  /** However it is scheduled, a run without new instructions has at most as many steps as
      there is work at its beginning. */
  lemma {:induction false} RunIsBounded(net: Net, s: State, events: seq<Event>)
    requires net.Valid() && Placed(net, s) && Runs(net, s, events) && NoAdds(events)
    ensures Placed(net, Run(net, s, events))
    ensures |events| + Work(net, Run(net, s, events), Places(net)) <= Work(net, s, Places(net))
    decreases |events|
  {
    hide Placed, Work, Places, Step, Enabled;
    if events != [] {
      StepKeepsPlaced(net, s, events[0]);
      MoveWorks(net, s, events[0]);
      RunIsBounded(net, Step(net, s, events[0]), events[1..]);
    }
  }

  /** Nothing can be sent, recieved or taken. */
  ghost predicate NoMove(net: Net, s: State) {
    forall e: Event :: !e.Add? ==> !Enabled(net, s, e)
  }

  /** Nothing is left on a connection whose reciever has ended. */
  ghost predicate NothingStranded(s: State) {
    forall c :: c in s.ended ==> At(s.links, c) == []
  }

  lemma QueuesAreInTree(net: Net, s: State, p: Name)
    requires net.Valid() && Placed(net, s)
    ensures p !in net.processes ==> At(s.outgoing, p) == [] && At(s.incoming, p) == []
  {
    hide OnRoute, At;
    if At(s.outgoing, p) != [] {
      assert MayBeOutgoing(net, p, At(s.outgoing, p)[0]);
    }
    if At(s.incoming, p) != [] {
      assert MayBeIncoming(net, p, At(s.incoming, p)[0]);
    }
  }

  /** A run that cannot go on has nothing on its way, unless it is stranded. */
  lemma NoMoveIsQuiet(net: Net, s: State)
    requires net.Valid() && Placed(net, s) && NoMove(net, s)
    ensures Quiet(s) <==> NothingStranded(s)
  {
    hide OnRoute, At;
    if NothingStranded(s) {
      forall p ensures At(s.outgoing, p) == [] && At(s.incoming, p) == [] {
        QueuesAreInTree(net, s, p);
        assert !Enabled(net, s, Send(p)) && !Enabled(net, s, Take(p));
      }
      forall p, q ensures At(s.links, (p, q)) == [] {
        assert !Enabled(net, s, Recieve(p, q));
      }
    }
    if Quiet(s) {
      forall c | c in s.ended ensures At(s.links, c) == [] {
        assert c == (c.0, c.1);
      }
    }
  }

  /** Whatever was added, and however the steps that follow are scheduled: there are only so
      many of them, and when no further one is possible and nothing is stranded, everything
      added from a to b has reached the end of its route, in order. */
  lemma EverythingArrives(net: Net, events: seq<Event>, moves: seq<Event>, a: Name, b: Name)
    requires net.Valid() && a in net.processes && a != b
    requires Runs(net, START, events) && Runs(net, Run(net, START, events), moves) && NoAdds(moves)
    ensures var s := Run(net, START, events);
            var s' := Run(net, s, moves);
            && |moves| <= Work(net, s, Places(net))
            && (NoMove(net, s') && NothingStranded(s') ==> Done(net, s', a, a, b) == Pick(s.added, a, b))
  {
    hide Work, Places, Done, Pick, NoMove, Enabled, Step, Journey, NothingStranded, Quiet, Placed, Balanced;
    PlacedAtStart(net);
    RunsPlaced(net, START, events);
    var s := Run(net, START, events);
    RunIsBounded(net, s, moves);
    RunsAppend(net, START, events, moves);
    var s' := Run(net, s, moves);
    AddedStays(net, s, moves);
    InOrderDelivery(net, events + moves, a, b);
    if NoMove(net, s') && NothingStranded(s') {
      NoMoveIsQuiet(net, s');
    }
  }

  lemma PlacedAtStart(net: Net)
    requires net.Valid()
    ensures Placed(net, START)
  {
  }

  lemma {:induction false} RunsPlaced(net: Net, s: State, events: seq<Event>)
    requires net.Valid() && Placed(net, s) && Runs(net, s, events)
    ensures Placed(net, Run(net, s, events))
    decreases |events|
  {
    hide Placed, Step, Enabled;
    if events != [] {
      StepKeepsPlaced(net, s, events[0]);
      RunsPlaced(net, Step(net, s, events[0]), events[1..]);
    }
  }

  lemma {:induction false} RunsAppend(net: Net, s: State, events: seq<Event>, more: seq<Event>)
    requires Runs(net, s, events) && Runs(net, Run(net, s, events), more)
    ensures Runs(net, s, events + more) && Run(net, s, events + more) == Run(net, Run(net, s, events), more)
    decreases |events|
  {
    hide Step, Enabled;
    if events == [] {
      assert events + more == more;
    } else {
      assert (events + more)[1..] == events[1..] + more;
      RunsAppend(net, Step(net, s, events[0]), events[1..], more);
    }
  }

  lemma {:induction false} AddedStays(net: Net, s: State, events: seq<Event>)
    requires Runs(net, s, events) && NoAdds(events)
    ensures Run(net, s, events).added == s.added
    decreases |events|
  {
    if events != [] {
      AddedStays(net, Step(net, s, events[0]), events[1..]);
    }
  }

  /** From anywhere some schedule leads to where nothing can move. */
  lemma {:induction false} CanFinish(net: Net, s: State) returns (moves: seq<Event>)
    requires net.Valid() && Placed(net, s)
    ensures Runs(net, s, moves) && NoAdds(moves) && NoMove(net, Run(net, s, moves))
    decreases Work(net, s, Places(net))
  {
    hide Placed, Work, Places, Step, Enabled;
    moves := [];
    if e: Event :| !e.Add? && Enabled(net, s, e) {
      MoveWorks(net, s, e);
      StepKeepsPlaced(net, s, e);
      var rest := CanFinish(net, Step(net, s, e));
      moves := [e] + rest;
      assert moves[1..] == rest;
    }
  }

  lemma RunsOne(net: Net, s: State, e: Event)
    ensures Runs(net, s, [e]) <==> Enabled(net, s, e)
    ensures Runs(net, s, [e]) ==> Run(net, s, [e]) == Step(net, s, e)
  {
    assert [e][1..] == [];
  }

  /** An instruction whose route leads to its destination, and which is no exit, can be handed
      over there: added to an empty tree, it is what has been delivered when nothing can move. */
  lemma CanBeDelivered(net: Net, a: Name, b: Name, payload: bytes) returns (moves: seq<Event>)
    requires net.Valid() && a in net.processes && a != b && Journey(net, a, b).delivered
    ensures var events := [Add(a, b, false, payload)] + moves;
            && NoAdds(moves) && Runs(net, START, events)
            && Pick(At(Run(net, START, events).delivered, b), a, b) == [Msg(a, b, false, payload)]
  {
    var m, add := Msg(a, b, false, payload), Add(a, b, false, payload);
    var s := Step(net, START, add);
    assert Enabled(net, START, add);
    RunsOne(net, START, add);
    assert s.added == [m] && Pick([m], a, b) == [m] by {
      assert [m][1..] == [];
    }
    PlacedAtStart(net);
    StepKeepsPlaced(net, START, add);
    AddIsPeaceful(net, a, b, payload);
    hide Placed, Step, Journey, Pick, Quiet, NoMove;
    moves := CanFinish(net, s);
    RunsAppend(net, START, [add], moves);
    PeaceLasts(net, s, moves);
    EverythingArrives(net, [add], moves, a, b);
  }

  /** No exit is on its way, and no reciever has ended. */
  ghost predicate Peaceful(s: State) {
    && s.ended == {}
    && (forall p :: NoExit(At(s.outgoing, p))) && (forall p :: NoExit(At(s.incoming, p)))
    && forall c :: NoExit(At(s.links, c))
  }

  ghost predicate NoExit(ms: seq<Msg>) {
    forall k :: 0 <= k < |ms| ==> !ms[k].exit
  }

  lemma AddIsPeaceful(net: Net, a: Name, b: Name, payload: bytes)
    requires a in net.processes && a != b
    ensures Peaceful(Step(net, START, Add(a, b, false, payload)))
  {
  }

  lemma PeacefulStep(net: Net, s: State, e: Event)
    requires Peaceful(s) && Enabled(net, s, e) && !e.Add?
    ensures Peaceful(Step(net, s, e))
  {
    match e
    case Send(p) => PeacefulSend(net, s, p);
    case Recieve(p, q) => PeacefulRecieve(net, s, p, q);
    case Take(p) =>
      PopPeace(s.incoming, p);
      PushPeace(s.outgoing, p, At(s.incoming, p)[0]);
      hide At, Push, Drop, NoExit;
  }

  lemma PeacefulSend(net: Net, s: State, p: Name)
    requires Peaceful(s) && Enabled(net, s, Send(p))
    ensures Peaceful(Step(net, s, Send(p)))
  {
    PopPeace(s.outgoing, p);
    hide At, Push, Drop, NoExit;
    var m, s' := At(s.outgoing, p)[0], Step(net, s, Send(p));
    match net.HopFrom(p, m.dst)
    case To(q) =>
      PushPeace(s.links, (p, q), m);
      assert s'.links == Push(s.links, (p, q), m);
    case Arrived => PushPeace(s.incoming, p, m);
    case Scrapped =>
  }

  lemma PeacefulRecieve(net: Net, s: State, p: Name, q: Name)
    requires Peaceful(s) && Enabled(net, s, Recieve(p, q))
    ensures Peaceful(Step(net, s, Recieve(p, q)))
  {
    PopPeace(s.links, (p, q));
    hide At, Push, Drop, NoExit;
    PushPeace(s.incoming, q, At(s.links, (p, q))[0]);
  }

  lemma PopPeace<K>(queues: map<K, seq<Msg>>, k: K)
    requires At(queues, k) != [] && forall j :: NoExit(At(queues, j))
    ensures !At(queues, k)[0].exit && forall j :: NoExit(At(Drop(queues, k), j))
  {
    hide At, Drop;
    AtDrop(queues, k);
    NoExitParts(At(queues, k));
    forall j ensures NoExit(At(Drop(queues, k), j)) {
      assert NoExit(At(queues, j));
    }
  }

  lemma NoExitParts(ms: seq<Msg>)
    requires ms != [] && NoExit(ms)
    ensures !ms[0].exit && NoExit(ms[1..])
  {
  }

  lemma PushPeace<K>(queues: map<K, seq<Msg>>, k: K, m: Msg)
    requires !m.exit && forall j :: NoExit(At(queues, j))
    ensures forall j :: NoExit(At(Push(queues, k, m), j))
  {
    AtPush(queues, k, m);
    assert NoExit(At(queues, k));
    hide At, Push;
  }

  lemma {:induction false} PeaceLasts(net: Net, s: State, moves: seq<Event>)
    requires Peaceful(s) && Runs(net, s, moves) && NoAdds(moves)
    ensures NothingStranded(Run(net, s, moves))
    decreases |moves|
  {
    hide Step, Enabled;
    if moves != [] {
      PeacefulStep(net, s, moves[0]);
      hide Peaceful;
      PeaceLasts(net, Step(net, s, moves[0]), moves[1..]);
    }
  }
}
