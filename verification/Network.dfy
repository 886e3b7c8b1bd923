/** Whole runs of a tree of processes that add, send, recieve and route instructions: for
    every source and destination nothing is lost, duplicated or reordered on the way. */
module Network {
  import opened Bytes
  import opened Routing

  /** An instruction under way. */
  datatype Msg = Msg(src: Name, dst: Name, exit: bool, payload: bytes)

  /** The queues of every process, the connections between them, the connections whose
      reciever has ended after an exit, and what was handed to its process, scrapped, or added. */
  datatype State = State(
    outgoing: map<Name, seq<Msg>>, incoming: map<Name, seq<Msg>>, links: map<(Name, Name), seq<Msg>>,
    ended: set<(Name, Name)>,
    delivered: map<Name, seq<Msg>>, scrapped: map<Name, seq<Msg>>, added: seq<Msg>)

  datatype Event =
    | Add(src: Name, dst: Name, exit: bool, payload: bytes)
    | Send(p: Name)
    | Recieve(p: Name, q: Name)
    | Take(p: Name)

  /** An absent queue is empty. */
  function At<K>(m: map<K, seq<Msg>>, k: K): seq<Msg> { if k in m then m[k] else [] }

  function Push<K>(m: map<K, seq<Msg>>, k: K, msg: Msg): map<K, seq<Msg>> { m[k := At(m, k) + [msg]] }

  function Drop<K>(m: map<K, seq<Msg>>, k: K): map<K, seq<Msg>>
    requires At(m, k) != []
  {
    m[k := At(m, k)[1..]]
  }

  const START := State(map[], map[], map[], {}, map[], map[], [])

  ghost predicate Enabled(net: Net, s: State, e: Event) {
    match e
    case Add(src, dst, _, _) => src in net.processes && dst != src
    case Send(p) => p in net.processes && At(s.outgoing, p) != []
    case Recieve(p, q) => At(s.links, (p, q)) != [] && (p, q) !in s.ended
    case Take(p) => p in net.processes && At(s.incoming, p) != []
  }

  /** One step. Sending forwards the front of the outgoing queue by the process table;
      recieving moves the front of a connection to the incoming queue; taking hands the front
      of the incoming queue to the process or passes it on. */
  ghost function Step(net: Net, s: State, e: Event): State
    requires Enabled(net, s, e)
  {
    match e
    case Add(src, dst, exit, payload) =>
      var m := Msg(src, dst, exit, payload);
      s.(outgoing := Push(s.outgoing, src, m), added := s.added + [m])
    case Send(p) =>
      var m := At(s.outgoing, p)[0];
      var s' := s.(outgoing := Drop(s.outgoing, p));
      (match net.HopFrom(p, m.dst)
       case To(q) => s'.(links := Push(s.links, (p, q), m))
       case Scrapped => s'.(scrapped := Push(s.scrapped, p, m))
       case Arrived => s'.(incoming := Push(s.incoming, p, m)))
    case Recieve(p, q) =>
      var m := At(s.links, (p, q))[0];
      s.(links := Drop(s.links, (p, q)), incoming := Push(s.incoming, q, m),
         ended := if m.exit && m.dst == q then s.ended + {(p, q)} else s.ended)
    case Take(p) =>
      var m := At(s.incoming, p)[0];
      var s' := s.(incoming := Drop(s.incoming, p));
      if m.dst == p then s'.(delivered := Push(s.delivered, p, m)) else s'.(outgoing := Push(s.outgoing, p, m))
  }

  ghost predicate Runs(net: Net, s: State, events: seq<Event>)
    decreases |events|
  {
    events == [] || (Enabled(net, s, events[0]) && Runs(net, Step(net, s, events[0]), events[1..]))
  }

  ghost function Run(net: Net, s: State, events: seq<Event>): State
    requires Runs(net, s, events)
    decreases |events|
  {
    if events == [] then s else Run(net, Step(net, s, events[0]), events[1..])
  }

  /** The instructions from a to b, in order. */
  function Pick(ms: seq<Msg>, a: Name, b: Name): seq<Msg> {
    if ms == [] then []
    else (if ms[0].src == a && ms[0].dst == b then [ms[0]] else []) + Pick(ms[1..], a, b)
  }

  lemma {:induction false} PickConcat(x: seq<Msg>, y: seq<Msg>, a: Name, b: Name)
    ensures Pick(x + y, a, b) == Pick(x, a, b) + Pick(y, a, b)
  {
    if x == [] {
      assert x + y == y;
    } else {
      assert (x + y)[1..] == x[1..] + y;
      PickConcat(x[1..], y, a, b);
    }
  }

  /** What has come through to p and beyond, then what is on its way at p and behind it:
      the instructions from a to b along the route from p on, oldest first. */
  ghost function Line(net: Net, s: State, p: Name, a: Name, b: Name): seq<Msg>
    requires net.Valid() && p in net.processes
    decreases net.Rank(p, b)
  {
    match net.HopFrom(p, b)
    case Arrived => Pick(At(s.delivered, p), a, b) + Pick(At(s.incoming, p), a, b)
    case Scrapped => Pick(At(s.scrapped, p), a, b) + Pick(At(s.outgoing, p), a, b) + Pick(At(s.incoming, p), a, b)
    case To(q) =>
      net.HopDescends(p, b);
      Line(net, s, q, a, b) + Pick(At(s.links, (p, q)), a, b) + Pick(At(s.outgoing, p), a, b)
      + Pick(At(s.incoming, p), a, b)
  }

  /** The line from a process that has a next hop. */
  lemma LineTo(net: Net, s: State, p: Name, a: Name, b: Name)
    requires net.Valid() && p in net.processes && net.HopFrom(p, b).To?
    ensures var q := net.HopFrom(p, b).next;
            && q in net.processes
            && Line(net, s, p, a, b) == Line(net, s, q, a, b) + Pick(At(s.links, (p, q)), a, b)
                                      + Pick(At(s.outgoing, p), a, b) + Pick(At(s.incoming, p), a, b)
  {
    hide Pick, At;
    net.HopDescends(p, b);
  }

  /** p lies on the route from `from` to b. */
  ghost predicate OnRoute(net: Net, from: Name, b: Name, p: Name)
    requires net.Valid() && from in net.processes
    decreases net.Rank(from, b)
  {
    from == p ||
    (net.HopFrom(from, b).To? &&
     (net.HopDescends(from, b); OnRoute(net, net.HopFrom(from, b).next, b, p)))
  }

  lemma {:induction false} RouteGoesOn(net: Net, from: Name, b: Name, p: Name)
    requires net.Valid() && from in net.processes && OnRoute(net, from, b, p)
    ensures p in net.processes && net.Rank(p, b) <= net.Rank(from, b)
    ensures p != from ==> net.Rank(p, b) < net.Rank(from, b)
    ensures net.HopFrom(p, b).To? ==> OnRoute(net, from, b, net.HopFrom(p, b).next)
    decreases net.Rank(from, b)
  {
    if from != p {
      net.HopDescends(from, b);
      RouteGoesOn(net, net.HopFrom(from, b).next, b, p);
    } else if net.HopFrom(p, b).To? {
      net.HopDescends(p, b);
      assert OnRoute(net, net.HopFrom(p, b).next, b, net.HopFrom(p, b).next);
    }
  }

  /** Nothing from a to b differs at process r between two states. */
  ghost predicate Same(s: State, s': State, r: Name, a: Name, b: Name) {
    && Pick(At(s'.delivered, r), a, b) == Pick(At(s.delivered, r), a, b)
    && Pick(At(s'.scrapped, r), a, b) == Pick(At(s.scrapped, r), a, b)
    && Pick(At(s'.incoming, r), a, b) == Pick(At(s.incoming, r), a, b)
    && Pick(At(s'.outgoing, r), a, b) == Pick(At(s.outgoing, r), a, b)
    && forall q :: Pick(At(s'.links, (r, q)), a, b) == Pick(At(s.links, (r, q)), a, b)
  }

  /** A line from p depends only on processes no further from the destination than p. */
  lemma {:induction false} LineSame(net: Net, s: State, s': State, p: Name, a: Name, b: Name)
    requires net.Valid() && p in net.processes
    requires forall r :: r in net.processes && net.Rank(r, b) <= net.Rank(p, b) ==> Same(s, s', r, a, b)
    ensures Line(net, s', p, a, b) == Line(net, s, p, a, b)
    decreases net.Rank(p, b)
  {
    assert Same(s, s', p, a, b);
    if net.HopFrom(p, b).To? {
      net.HopDescends(p, b);
      LineSame(net, s, s', net.HopFrom(p, b).next, a, b);
    }
  }

  /** A change that keeps the line from `at` on, and nothing in front of `at`, keeps the line. */
  lemma {:induction false} LineLocal(net: Net, s: State, s': State, from: Name, at: Name, a: Name, b: Name)
    requires net.Valid() && from in net.processes && at in net.processes && OnRoute(net, from, b, at)
    requires Line(net, s', at, a, b) == Line(net, s, at, a, b)
    requires forall r :: r in net.processes && net.Rank(r, b) > net.Rank(at, b) ==> Same(s, s', r, a, b)
    ensures Line(net, s', from, a, b) == Line(net, s, from, a, b)
    decreases net.Rank(from, b)
  {
    if from != at {
      net.HopDescends(from, b);
      var q := net.HopFrom(from, b).next;
      RouteGoesOn(net, q, b, at);
      assert Same(s, s', from, a, b);
      LineLocal(net, s, s', q, at, a, b);
    }
  }

  /** The message alone, if it goes from a to b. */
  function One(m: Msg, a: Name, b: Name): seq<Msg> { if m.src == a && m.dst == b then [m] else [] }

  lemma PickPush<K>(queues: map<K, seq<Msg>>, k: K, m: Msg, k': K, a: Name, b: Name)
    ensures Pick(At(Push(queues, k, m), k'), a, b)
         == Pick(At(queues, k'), a, b) + (if k' == k then One(m, a, b) else [])
  {
    PickConcat(At(queues, k), [m], a, b);
    assert Pick([m], a, b) == One(m, a, b) + [];
  }

  lemma PickDrop<K>(queues: map<K, seq<Msg>>, k: K, k': K, a: Name, b: Name)
    requires At(queues, k) != []
    ensures (if k' == k then One(At(queues, k)[0], a, b) else []) + Pick(At(Drop(queues, k), k'), a, b)
         == Pick(At(queues, k'), a, b)
  {
  }

  /** Where an instruction may be: on its route, in a queue or connection that leads on. */
  ghost predicate MayBeOutgoing(net: Net, p: Name, m: Msg)
    requires net.Valid()
  {
    m.src in net.processes && p in net.processes && m.dst != p && OnRoute(net, m.src, m.dst, p)
  }

  ghost predicate MayBeIncoming(net: Net, p: Name, m: Msg)
    requires net.Valid()
  {
    m.src in net.processes && p in net.processes && p != m.src && OnRoute(net, m.src, m.dst, p)
  }

  ghost predicate MayBeOnLink(net: Net, p: Name, q: Name, m: Msg)
    requires net.Valid()
  {
    && m.src in net.processes && p in net.processes && OnRoute(net, m.src, m.dst, p)
    && net.HopFrom(p, m.dst) == To(q)
  }

  ghost predicate MayBeDelivered(net: Net, p: Name, m: Msg)
    requires net.Valid()
  {
    m.src in net.processes && m.dst == p && OnRoute(net, m.src, m.dst, p)
  }

  ghost predicate Placed(net: Net, s: State)
    requires net.Valid()
  {
    && (forall p, m :: m in At(s.delivered, p) ==> MayBeDelivered(net, p, m))
    && (forall p, m :: m in At(s.outgoing, p) ==> MayBeOutgoing(net, p, m))
    && (forall p, m :: m in At(s.incoming, p) ==> MayBeIncoming(net, p, m))
    && (forall p, q, m :: m in At(s.links, (p, q)) ==> MayBeOnLink(net, p, q, m))
  }

  lemma InPush<K>(queues: map<K, seq<Msg>>, k: K, m: Msg)
    ensures forall k', m' :: m' in At(Push(queues, k, m), k') ==> m' in At(queues, k') || (k' == k && m' == m)
  {
  }

  lemma InDrop<K>(queues: map<K, seq<Msg>>, k: K)
    requires At(queues, k) != []
    ensures forall k', m' :: m' in At(Drop(queues, k), k') ==> m' in At(queues, k')
    ensures At(queues, k)[0] in At(queues, k)
  {
  }

  lemma StepKeepsPlaced(net: Net, s: State, e: Event)
    requires net.Valid() && Placed(net, s) && Enabled(net, s, e)
    ensures Placed(net, Step(net, s, e))
  {
    hide Placed, Step;
    match e
    case Add(_, _, _, _) => AddKeepsPlaced(net, s, e);
    case Send(p) => SendKeepsPlaced(net, s, p);
    case Recieve(p, q) => RecieveKeepsPlaced(net, s, p, q);
    case Take(p) => TakeKeepsPlaced(net, s, p);
  }

  lemma AddKeepsPlaced(net: Net, s: State, e: Event)
    requires net.Valid() && Placed(net, s) && e.Add? && Enabled(net, s, e)
    ensures Placed(net, Step(net, s, e))
  {
    hide OnRoute, At, Push, Drop;
    InPush(s.outgoing, e.src, Msg(e.src, e.dst, e.exit, e.payload));
    OnRouteStart(net, e.src, e.dst);
  }

  lemma SendKeepsPlaced(net: Net, s: State, p: Name)
    requires net.Valid() && Placed(net, s) && Enabled(net, s, Send(p))
    ensures Placed(net, Step(net, s, Send(p)))
  {
    hide OnRoute, At, Push, Drop;
    var m := At(s.outgoing, p)[0];
    InDrop(s.outgoing, p);
    assert MayBeOutgoing(net, p, m);
    if net.HopFrom(p, m.dst).To? {
      InPush(s.links, (p, net.HopFrom(p, m.dst).next), m);
    }
  }

  lemma TakeKeepsPlaced(net: Net, s: State, p: Name)
    requires net.Valid() && Placed(net, s) && Enabled(net, s, Take(p))
    ensures Placed(net, Step(net, s, Take(p)))
  {
    hide OnRoute, At, Push, Drop;
    var m := At(s.incoming, p)[0];
    InDrop(s.incoming, p);
    assert MayBeIncoming(net, p, m);
    InPush(s.outgoing, p, m);
    InPush(s.delivered, p, m);
  }

  lemma RecieveKeepsPlaced(net: Net, s: State, p: Name, q: Name)
    requires net.Valid() && Placed(net, s) && Enabled(net, s, Recieve(p, q))
    ensures Placed(net, Step(net, s, Recieve(p, q)))
  {
    hide OnRoute, At, Push, Drop;
    var m := At(s.links, (p, q))[0];
    InDrop(s.links, (p, q));
    assert MayBeOnLink(net, p, q, m);
    InPush(s.incoming, q, m);
    RouteGoesOn(net, m.src, m.dst, p);
    net.HopDescends(p, m.dst);
  }

  lemma OnRouteStart(net: Net, p: Name, b: Name)
    requires net.Valid() && p in net.processes
    ensures OnRoute(net, p, b, p)
  {
  }

  /** What was delivered and what is under way, oldest first, is what was added. */
  ghost predicate Balanced(net: Net, s: State, a: Name, b: Name)
    requires net.Valid()
  {
    a in net.processes && a != b ==> Line(net, s, a, a, b) == Pick(s.added, a, b)
  }

  ghost predicate Between(m: Msg, a: Name, b: Name) { m.src == a && m.dst == b }

  lemma SendSame(net: Net, s: State, p: Name, r: Name, a: Name, b: Name)
    requires Enabled(net, s, Send(p)) && (r != p || !Between(At(s.outgoing, p)[0], a, b))
    ensures Same(s, Step(net, s, Send(p)), r, a, b)
  {
    hide Pick, Push, Drop, At, Net.HopFrom;
    var m := At(s.outgoing, p)[0];
    PickDrop(s.outgoing, p, r, a, b);
    if net.HopFrom(p, m.dst).To? {
      var q := net.HopFrom(p, m.dst).next;
      PushSame(s.links, p, q, m, r, a, b);
    } else {
      PickPush(s.scrapped, p, m, r, a, b);
      PickPush(s.incoming, p, m, r, a, b);
    }
  }

  lemma PushSame(links: map<(Name, Name), seq<Msg>>, p: Name, q: Name, m: Msg, r: Name, a: Name, b: Name)
    requires r != p || !Between(m, a, b)
    ensures forall t :: Pick(At(Push(links, (p, q), m), (r, t)), a, b) == Pick(At(links, (r, t)), a, b)
  {
    hide Pick, Push, At;
    forall t ensures Pick(At(Push(links, (p, q), m), (r, t)), a, b) == Pick(At(links, (r, t)), a, b) {
      PickPush(links, (p, q), m, (r, t), a, b);
    }
  }

  lemma MoveOne(x: seq<Msg>, m: seq<Msg>, y: seq<Msg>, z: seq<Msg>)
    ensures x + m + y + z == x + (m + y) + z
  {
  }

  /** Sending moves an instruction one place along its line. */
  lemma SendLine(net: Net, s: State, p: Name)
    requires net.Valid() && Placed(net, s) && Enabled(net, s, Send(p))
    ensures var m := At(s.outgoing, p)[0];
            Line(net, Step(net, s, Send(p)), p, m.src, m.dst) == Line(net, s, p, m.src, m.dst)
  {
    hide Pick, Push, Drop, OnRoute;
    var m := At(s.outgoing, p)[0];
    var a, b := m.src, m.dst;
    var s' := Step(net, s, Send(p));
    assert MayBeOutgoing(net, p, m);
    PickDrop(s.outgoing, p, p, a, b);
    var left, behind := Pick(At(s'.outgoing, p), a, b), Pick(At(s.incoming, p), a, b);
    if net.HopFrom(p, b).To? {
      var q := net.HopFrom(p, b).next;
      PickPush(s.links, (p, q), m, (p, q), a, b);
      SendLineBeyond(net, s, p, q);
      ConcatAssoc(Line(net, s, q, a, b), Pick(At(s.links, (p, q)), a, b), [m]);
      MoveOne(Line(net, s, q, a, b) + Pick(At(s.links, (p, q)), a, b), [m], left, behind);
    } else {
      PickPush(s.scrapped, p, m, p, a, b);
      MoveOne(Pick(At(s.scrapped, p), a, b), [m], left, behind);
    }
  }

  lemma SendLineBeyond(net: Net, s: State, p: Name, q: Name)
    requires net.Valid() && Enabled(net, s, Send(p)) && net.HopFrom(p, At(s.outgoing, p)[0].dst) == To(q)
    ensures var m := At(s.outgoing, p)[0];
            q in net.processes && Line(net, Step(net, s, Send(p)), q, m.src, m.dst) == Line(net, s, q, m.src, m.dst)
  {
    hide Pick, Push, Drop, Step;
    var m := At(s.outgoing, p)[0];
    net.HopDescends(p, m.dst);
    forall r | r in net.processes && net.Rank(r, m.dst) <= net.Rank(q, m.dst)
      ensures Same(s, Step(net, s, Send(p)), r, m.src, m.dst)
    {
      SendSame(net, s, p, r, m.src, m.dst);
    }
    LineSame(net, s, Step(net, s, Send(p)), q, m.src, m.dst);
  }

  lemma SendBalances(net: Net, s: State, p: Name, a: Name, b: Name)
    requires net.Valid() && Placed(net, s) && Enabled(net, s, Send(p)) && Balanced(net, s, a, b)
    ensures Balanced(net, Step(net, s, Send(p)), a, b)
  {
    hide Line, OnRoute, Pick, Push, Drop;
    if a in net.processes && a != b {
      var s' := Step(net, s, Send(p));
      var m := At(s.outgoing, p)[0];
      assert MayBeOutgoing(net, p, m);
      forall r | r != p || !Between(m, a, b) ensures Same(s, s', r, a, b) {
        SendSame(net, s, p, r, a, b);
      }
      if Between(m, a, b) {
        SendLine(net, s, p);
        LineLocal(net, s, s', a, p, a, b);
      } else {
        LineSame(net, s, s', a, a, b);
      }
    }
  }

  lemma TakeSame(net: Net, s: State, p: Name, r: Name, a: Name, b: Name)
    requires Enabled(net, s, Take(p)) && (r != p || !Between(At(s.incoming, p)[0], a, b))
    ensures Same(s, Step(net, s, Take(p)), r, a, b)
  {
    hide Pick, Push, Drop, At;
    var m := At(s.incoming, p)[0];
    PickDrop(s.incoming, p, r, a, b);
    PickPush(s.delivered, p, m, r, a, b);
    PickPush(s.outgoing, p, m, r, a, b);
  }

  /** Taking hands an instruction over at its destination, and queues it for sending elsewhere. */
  lemma TakeLine(net: Net, s: State, p: Name)
    requires net.Valid() && Enabled(net, s, Take(p))
    ensures var m := At(s.incoming, p)[0];
            Line(net, Step(net, s, Take(p)), p, m.src, m.dst) == Line(net, s, p, m.src, m.dst)
  {
    hide Pick, Push, Drop, OnRoute, At;
    var m := At(s.incoming, p)[0];
    var a, b := m.src, m.dst;
    var s' := Step(net, s, Take(p));
    PickDrop(s.incoming, p, p, a, b);
    PickPush(s.delivered, p, m, p, a, b);
    PickPush(s.outgoing, p, m, p, a, b);
    var left, out := Pick(At(s'.incoming, p), a, b), Pick(At(s.outgoing, p), a, b);
    match net.HopFrom(p, b)
    case Arrived =>
      ConcatAssoc(Pick(At(s.delivered, p), a, b), [m], left);
    case Scrapped =>
      MoveOne(Pick(At(s.scrapped, p), a, b) + out, [m], left, []);
      ConcatAssoc(Pick(At(s.scrapped, p), a, b), out, [m]);
    case To(q) => TakeLineTo(net, s, p, q);
  }

  lemma TakeLineTo(net: Net, s: State, p: Name, q: Name)
    requires net.Valid() && Enabled(net, s, Take(p)) && net.HopFrom(p, At(s.incoming, p)[0].dst) == To(q)
    ensures var m := At(s.incoming, p)[0];
            Line(net, Step(net, s, Take(p)), p, m.src, m.dst) == Line(net, s, p, m.src, m.dst)
  {
    var m := At(s.incoming, p)[0];
    var a, b := m.src, m.dst;
    var s' := Step(net, s, Take(p));
    LineTo(net, s, p, a, b);
    LineTo(net, s', p, a, b);
    assert m.dst != p && s'.links == s.links;
    hide Pick, Push, Drop, OnRoute, At, Line, Net.HopFrom;
    PickDrop(s.incoming, p, p, a, b);
    PickPush(s.outgoing, p, m, p, a, b);
    TakeLineBeyond(net, s, p, q);
    var left, out := Pick(At(s'.incoming, p), a, b), Pick(At(s.outgoing, p), a, b);
    var ahead := Line(net, s, q, a, b) + Pick(At(s.links, (p, q)), a, b);
    ConcatAssoc(ahead, out, [m]);
    ConcatAssoc(ahead + out, [m], left);
  }

  lemma TakeLineBeyond(net: Net, s: State, p: Name, q: Name)
    requires net.Valid() && Enabled(net, s, Take(p)) && net.HopFrom(p, At(s.incoming, p)[0].dst) == To(q)
    ensures var m := At(s.incoming, p)[0];
            q in net.processes && Line(net, Step(net, s, Take(p)), q, m.src, m.dst) == Line(net, s, q, m.src, m.dst)
  {
    hide Pick, Push, Drop, Step;
    var m := At(s.incoming, p)[0];
    net.HopDescends(p, m.dst);
    forall r | r in net.processes && net.Rank(r, m.dst) <= net.Rank(q, m.dst)
      ensures Same(s, Step(net, s, Take(p)), r, m.src, m.dst)
    {
      TakeSame(net, s, p, r, m.src, m.dst);
    }
    LineSame(net, s, Step(net, s, Take(p)), q, m.src, m.dst);
  }

  lemma TakeBalances(net: Net, s: State, p: Name, a: Name, b: Name)
    requires net.Valid() && Placed(net, s) && Enabled(net, s, Take(p)) && Balanced(net, s, a, b)
    ensures Balanced(net, Step(net, s, Take(p)), a, b)
  {
    hide Line, OnRoute, Pick, Push, Drop;
    if a in net.processes && a != b {
      var s' := Step(net, s, Take(p));
      var m := At(s.incoming, p)[0];
      assert MayBeIncoming(net, p, m);
      forall r | r != p || !Between(m, a, b) ensures Same(s, s', r, a, b) {
        TakeSame(net, s, p, r, a, b);
      }
      if Between(m, a, b) {
        TakeLine(net, s, p);
        LineLocal(net, s, s', a, p, a, b);
      } else {
        LineSame(net, s, s', a, a, b);
      }
    }
  }

  lemma RecieveSame(net: Net, s: State, p: Name, q: Name, r: Name, a: Name, b: Name)
    requires Enabled(net, s, Recieve(p, q)) && ((r != p && r != q) || !Between(At(s.links, (p, q))[0], a, b))
    ensures Same(s, Step(net, s, Recieve(p, q)), r, a, b)
  {
    hide Pick, Push, Drop, At;
    var m := At(s.links, (p, q))[0];
    PickPush(s.incoming, q, m, r, a, b);
    forall q' ensures Pick(At(Drop(s.links, (p, q)), (r, q')), a, b) == Pick(At(s.links, (r, q')), a, b) {
      PickDrop(s.links, (p, q), (r, q'), a, b);
    }
  }

  /** The line from the recieving process on grows by the instruction. */
  lemma RecieveLineAt(net: Net, s: State, p: Name, q: Name)
    requires net.Valid() && Placed(net, s) && Enabled(net, s, Recieve(p, q))
    ensures var m := At(s.links, (p, q))[0];
            && q in net.processes
            && Line(net, Step(net, s, Recieve(p, q)), q, m.src, m.dst) == Line(net, s, q, m.src, m.dst) + [m]
  {
    hide Pick, Push, Drop, OnRoute, At;
    var m := At(s.links, (p, q))[0];
    var a, b := m.src, m.dst;
    var s' := Step(net, s, Recieve(p, q));
    assert MayBeOnLink(net, p, q, m);
    net.HopDescends(p, b);
    PickPush(s.incoming, q, m, q, a, b);
    var here := Pick(At(s.incoming, q), a, b);
    match net.HopFrom(q, b)
    case Arrived =>
      ConcatAssoc(Pick(At(s.delivered, q), a, b), here, [m]);
    case Scrapped =>
      ConcatAssoc(Pick(At(s.scrapped, q), a, b) + Pick(At(s.outgoing, q), a, b), here, [m]);
    case To(n) => RecieveLineTo(net, s, p, q, n);
  }

  lemma RecieveLineTo(net: Net, s: State, p: Name, q: Name, n: Name)
    requires net.Valid() && Enabled(net, s, Recieve(p, q)) && p in net.processes
    requires net.HopFrom(p, At(s.links, (p, q))[0].dst) == To(q)
    requires q in net.processes && net.HopFrom(q, At(s.links, (p, q))[0].dst) == To(n)
    ensures var m := At(s.links, (p, q))[0];
            Line(net, Step(net, s, Recieve(p, q)), q, m.src, m.dst) == Line(net, s, q, m.src, m.dst) + [m]
  {
    var m := At(s.links, (p, q))[0];
    var a, b := m.src, m.dst;
    var s' := Step(net, s, Recieve(p, q));
    LineTo(net, s, q, a, b);
    LineTo(net, s', q, a, b);
    hide Pick, Push, Drop, OnRoute, At, Line, Net.HopFrom;
    PickPush(s.incoming, q, m, q, a, b);
    var here := Pick(At(s.incoming, q), a, b);
    RecieveLineBeyond(net, s, p, q, n);
    PickDrop(s.links, (p, q), (q, n), a, b);
    ConcatAssoc(Line(net, s, n, a, b) + Pick(At(s.links, (q, n)), a, b) + Pick(At(s.outgoing, q), a, b), here, [m]);
  }

  lemma RecieveLineBeyond(net: Net, s: State, p: Name, q: Name, n: Name)
    requires net.Valid() && Enabled(net, s, Recieve(p, q)) && p in net.processes
    requires net.HopFrom(p, At(s.links, (p, q))[0].dst) == To(q)
    requires q in net.processes && net.HopFrom(q, At(s.links, (p, q))[0].dst) == To(n)
    ensures var m := At(s.links, (p, q))[0];
            && n in net.processes
            && Line(net, Step(net, s, Recieve(p, q)), n, m.src, m.dst) == Line(net, s, n, m.src, m.dst)
  {
    hide Pick, Push, Drop, Step;
    var m := At(s.links, (p, q))[0];
    net.HopDescends(p, m.dst);
    net.HopDescends(q, m.dst);
    forall r | r in net.processes && net.Rank(r, m.dst) <= net.Rank(n, m.dst)
      ensures Same(s, Step(net, s, Recieve(p, q)), r, m.src, m.dst)
    {
      RecieveSame(net, s, p, q, r, m.src, m.dst);
    }
    LineSame(net, s, Step(net, s, Recieve(p, q)), n, m.src, m.dst);
  }

  /** Recieving moves an instruction from the connection to the queue behind it. */
  lemma RecieveLine(net: Net, s: State, p: Name, q: Name)
    requires net.Valid() && Placed(net, s) && Enabled(net, s, Recieve(p, q))
    ensures var m := At(s.links, (p, q))[0];
            && p in net.processes
            && Line(net, Step(net, s, Recieve(p, q)), p, m.src, m.dst) == Line(net, s, p, m.src, m.dst)
  {
    RecieveLineAt(net, s, p, q);
    hide Pick, Push, Drop, OnRoute;
    var m := At(s.links, (p, q))[0];
    var a, b := m.src, m.dst;
    var s' := Step(net, s, Recieve(p, q));
    assert MayBeOnLink(net, p, q, m);
    net.HopDescends(p, b);
    PickDrop(s.links, (p, q), (p, q), a, b);
    PickPush(s.incoming, q, m, p, a, b);
    MoveOne(Line(net, s, q, a, b), [m], Pick(At(s'.links, (p, q)), a, b), Pick(At(s.outgoing, p), a, b));
  }

  lemma RecieveBalances(net: Net, s: State, p: Name, q: Name, a: Name, b: Name)
    requires net.Valid() && Placed(net, s) && Enabled(net, s, Recieve(p, q)) && Balanced(net, s, a, b)
    ensures Balanced(net, Step(net, s, Recieve(p, q)), a, b)
  {
    hide Line, OnRoute, Pick, Push, Drop;
    if a in net.processes && a != b {
      var s' := Step(net, s, Recieve(p, q));
      var m := At(s.links, (p, q))[0];
      assert MayBeOnLink(net, p, q, m);
      net.HopDescends(p, m.dst);
      forall r | (r != p && r != q) || !Between(m, a, b) ensures Same(s, s', r, a, b) {
        RecieveSame(net, s, p, q, r, a, b);
      }
      if Between(m, a, b) {
        RecieveLine(net, s, p, q);
        LineLocal(net, s, s', a, p, a, b);
      } else {
        LineSame(net, s, s', a, a, b);
      }
    }
  }

  lemma AddSame(net: Net, s: State, e: Event, r: Name, a: Name, b: Name)
    requires e.Add? && Enabled(net, s, e) && (r != e.src || a != e.src || b != e.dst)
    ensures Same(s, Step(net, s, e), r, a, b)
  {
    hide Pick, Push, Drop, At;
    PickPush(s.outgoing, e.src, Msg(e.src, e.dst, e.exit, e.payload), r, a, b);
  }

  lemma {:induction false} NoneOfPick(ms: seq<Msg>, a: Name, b: Name)
    requires forall m :: m in ms ==> !Between(m, a, b)
    ensures Pick(ms, a, b) == []
  {
    if ms != [] {
      NoneOfPick(ms[1..], a, b);
      assert ms[0] in ms;
    }
  }

  /** Nothing that a process has added comes back to it. */
  lemma NothingReturns(net: Net, s: State, a: Name, b: Name)
    requires net.Valid() && Placed(net, s)
    ensures Pick(At(s.incoming, a), a, b) == []
  {
    forall m | m in At(s.incoming, a) ensures !Between(m, a, b) {
      assert MayBeIncoming(net, a, m);
    }
    NoneOfPick(At(s.incoming, a), a, b);
  }

  lemma AddLine(net: Net, s: State, e: Event)
    requires net.Valid() && Placed(net, s) && e.Add? && Enabled(net, s, e)
    ensures Line(net, Step(net, s, e), e.src, e.src, e.dst)
         == Line(net, s, e.src, e.src, e.dst) + [Msg(e.src, e.dst, e.exit, e.payload)]
  {
    hide Pick, Push, Drop, OnRoute;
    var a, b, m := e.src, e.dst, Msg(e.src, e.dst, e.exit, e.payload);
    var s' := Step(net, s, e);
    NothingReturns(net, s, a, b);
    PickPush(s.outgoing, a, m, a, a, b);
    var out := Pick(At(s.outgoing, a), a, b);
    match net.HopFrom(a, b)
    case Scrapped =>
      ConcatAssoc(Pick(At(s.scrapped, a), a, b), out, [m]);
      NothingBehind(Pick(At(s.scrapped, a), a, b) + out, [m], Pick(At(s.incoming, a), a, b));
    case To(q) =>
      net.HopDescends(a, b);
      forall r | r in net.processes && net.Rank(r, b) <= net.Rank(q, b) ensures Same(s, s', r, a, b) {
        AddSame(net, s, e, r, a, b);
      }
      LineSame(net, s, s', q, a, b);
      var ahead := Line(net, s, q, a, b) + Pick(At(s.links, (a, q)), a, b);
      ConcatAssoc(ahead, out, [m]);
      NothingBehind(ahead + out, [m], Pick(At(s.incoming, a), a, b));
  }

  lemma NothingBehind(x: seq<Msg>, m: seq<Msg>, none: seq<Msg>)
    requires none == []
    ensures x + m + none == x + none + m
  {
  }

  lemma AddBalances(net: Net, s: State, e: Event, a: Name, b: Name)
    requires net.Valid() && Placed(net, s) && e.Add? && Enabled(net, s, e) && Balanced(net, s, a, b)
    ensures Balanced(net, Step(net, s, e), a, b)
  {
    hide Line, OnRoute;
    if a in net.processes && a != b {
      var s' := Step(net, s, e);
      var m := Msg(e.src, e.dst, e.exit, e.payload);
      PickConcat(s.added, [m], a, b);
      assert Pick([m], a, b) == One(m, a, b) + [];
      if e.src == a && e.dst == b {
        AddLine(net, s, e);
      } else {
        forall r ensures Same(s, s', r, a, b) {
          AddSame(net, s, e, r, a, b);
        }
        LineSame(net, s, s', a, a, b);
      }
    }
  }

  lemma StepBalances(net: Net, s: State, e: Event, a: Name, b: Name)
    requires net.Valid() && Placed(net, s) && Enabled(net, s, e) && Balanced(net, s, a, b)
    ensures Balanced(net, Step(net, s, e), a, b)
  {
    match e
    case Add(_, _, _, _) => AddBalances(net, s, e, a, b);
    case Send(p) => SendBalances(net, s, p, a, b);
    case Recieve(p, q) => RecieveBalances(net, s, p, q, a, b);
    case Take(p) => TakeBalances(net, s, p, a, b);
  }

  lemma {:induction false} RunBalances(net: Net, s: State, events: seq<Event>, a: Name, b: Name)
    requires net.Valid() && Placed(net, s) && Balanced(net, s, a, b) && Runs(net, s, events)
    ensures Placed(net, Run(net, s, events)) && Balanced(net, Run(net, s, events), a, b)
    decreases |events|
  {
    hide Placed, Balanced, Step;
    if events != [] {
      StepKeepsPlaced(net, s, events[0]);
      StepBalances(net, s, events[0], a, b);
      RunBalances(net, Step(net, s, events[0]), events[1..], a, b);
    }
  }

  lemma {:induction false} NothingAtStart(net: Net, p: Name, a: Name, b: Name)
    requires net.Valid() && p in net.processes
    ensures Line(net, START, p, a, b) == []
    decreases net.Rank(p, b)
  {
    if net.HopFrom(p, b).To? {
      net.HopDescends(p, b);
      NothingAtStart(net, net.HopFrom(p, b).next, a, b);
    }
  }

  /** What has reached the end of the route: handed over at the destination, or scrapped
      where the route ends without it. */
  ghost function Done(net: Net, s: State, p: Name, a: Name, b: Name): seq<Msg>
    requires net.Valid() && p in net.processes
  {
    var f := Journey(net, p, b);
    if f.delivered then Pick(At(s.delivered, f.end), a, b) else Pick(At(s.scrapped, f.end), a, b)
  }

  ghost predicate Quiet(s: State) {
    (forall p :: At(s.outgoing, p) == [] && At(s.incoming, p) == []) && forall p, q :: At(s.links, (p, q)) == []
  }

  /** The line from p is the one from the next process on the route, and what is in between. */
  lemma LineBeyond(net: Net, s: State, p: Name, a: Name, b: Name)
    requires net.Valid() && p in net.processes && net.HopFrom(p, b).To?
    ensures var q := net.HopFrom(p, b).next;
            && q in net.processes && net.Rank(q, b) < net.Rank(p, b)
            && Done(net, s, p, a, b) == Done(net, s, q, a, b)
            && Line(net, s, q, a, b) <= Line(net, s, p, a, b)
            && (Quiet(s) ==> Line(net, s, p, a, b) == Line(net, s, q, a, b))
  {
    assert Pick([], a, b) == [];
    hide Pick, At;
    net.HopDescends(p, b);
  }

  lemma {:induction false} LineBeginsWithDone(net: Net, s: State, p: Name, a: Name, b: Name)
    requires net.Valid() && p in net.processes
    ensures Done(net, s, p, a, b) <= Line(net, s, p, a, b)
    ensures Quiet(s) ==> Done(net, s, p, a, b) == Line(net, s, p, a, b)
    decreases net.Rank(p, b)
  {
    assert Pick([], a, b) == [];
    hide Pick, At;
    if net.HopFrom(p, b).To? {
      LineBeyond(net, s, p, a, b);
      LineBeginsWithDone(net, s, net.HopFrom(p, b).next, a, b);
      hide *;
    }
  }

  lemma {:induction false} RouteToDestination(net: Net, p: Name, b: Name)
    requires net.Valid() && p in net.processes && OnRoute(net, p, b, b)
    ensures Journey(net, p, b).delivered
    decreases net.Rank(p, b)
  {
    if p != b {
      net.HopDescends(p, b);
      RouteToDestination(net, net.HopFrom(p, b).next, b);
    }
  }

  /** After every run, for every source and destination: what was handed over (or, where no
      route leads to the destination, scrapped) followed by what is on its way is exactly
      what was added, in order; the part that arrived is a prefix of it, and all of it once
      nothing is on its way. Without a route nothing is ever handed over. */
  lemma InOrderDelivery(net: Net, events: seq<Event>, a: Name, b: Name)
    requires net.Valid() && a in net.processes && a != b && Runs(net, START, events)
    ensures var s := Run(net, START, events);
            && Line(net, s, a, a, b) == Pick(s.added, a, b)
            && Done(net, s, a, a, b) <= Pick(s.added, a, b)
            && (Quiet(s) ==> Done(net, s, a, a, b) == Pick(s.added, a, b))
            && (!Journey(net, a, b).delivered ==> Pick(At(s.delivered, b), a, b) == [])
  {
    assert Pick([], a, b) == [];
    hide Line, OnRoute, Done, Pick;
    NothingAtStart(net, a, a, b);
    RunBalances(net, START, events, a, b);
    var s := Run(net, START, events);
    LineBeginsWithDone(net, s, a, a, b);
    if !Journey(net, a, b).delivered {
      forall m | m in At(s.delivered, b) ensures !Between(m, a, b) {
        assert MayBeDelivered(net, b, m);
        if Between(m, a, b) {
          RouteToDestination(net, a, b);
        }
      }
      NoneOfPick(At(s.delivered, b), a, b);
    }
  }
}
