/** When the reciever of a connection ends: it recieves up to the first exit for its process,
    and nothing behind it. */
module NetworkEnds {
  import opened Bytes
  import opened Routing
  import opened Network
  import opened NetworkProgress

  /** The message at the front of the connection from p to q after a run, if there is one. */
  ghost function FrontAfter(net: Net, events: seq<Event>, p: Name, q: Name): Option<Msg> {
    if Runs(net, START, events) && At(Run(net, START, events).links, (p, q)) != [] then
      Some(At(Run(net, START, events).links, (p, q))[0])
    else None
  }

  /** The k-th step takes an exit for q from the connection. */
  ghost predicate TakesExit(net: Net, events: seq<Event>, k: nat, p: Name, q: Name)
    requires k < |events|
  {
    && events[k] == Recieve(p, q)
    && var m := FrontAfter(net, events[..k], p, q);
       m.Some? && m.value.exit && m.value.dst == q
  }

  lemma {:induction false} RunsPrefix(net: Net, s: State, events: seq<Event>, more: seq<Event>)
    requires Runs(net, s, events + more)
    ensures Runs(net, s, events) && Runs(net, Run(net, s, events), more)
    decreases |events|
  {
    hide Step, Enabled;
    if events == [] {
      assert events + more == more;
    } else {
      assert (events + more)[1..] == events[1..] + more;
      RunsPrefix(net, Step(net, s, events[0]), events[1..], more);
    }
  }

  /** One step more. */
  lemma RunsSnoc(net: Net, events: seq<Event>, e: Event)
    ensures Runs(net, START, events + [e]) <==>
            Runs(net, START, events) && Enabled(net, Run(net, START, events), e)
    ensures Runs(net, START, events + [e]) ==>
              Run(net, START, events + [e]) == Step(net, Run(net, START, events), e)
  {
    hide Step, Enabled;
    if Runs(net, START, events + [e]) {
      RunsPrefix(net, START, events, [e]);
    }
    if Runs(net, START, events) {
      RunsOne(net, Run(net, START, events), e);
      if Enabled(net, Run(net, START, events), e) {
        RunsAppend(net, START, events, [e]);
      }
    }
  }

  /** A reciever has ended exactly when it has taken an exit for its process. */
  lemma {:induction false} EndedByExit(net: Net, events: seq<Event>, p: Name, q: Name)
    requires Runs(net, START, events)
    ensures (p, q) in Run(net, START, events).ended <==> exists k :: 0 <= k < |events| && TakesExit(net, events, k, p, q)
    decreases |events|
  {
    if events != [] {
      var n := |events| - 1;
      var front, e := events[..n], events[n];
      assert events == front + [e];
      RunsSnoc(net, front, e);
      EndedByExit(net, front, p, q);
      assert events[..n] == front;
      EndedStep(net, Run(net, START, front), e, p, q);
      forall k | 0 <= k < n ensures TakesExit(net, front, k, p, q) <==> TakesExit(net, events, k, p, q) {
        assert front[..k] == events[..k];
      }
      hide Step, Runs, Run;
      assert TakesExit(net, events, n, p, q) <==>
             e == Recieve(p, q) && At(Run(net, START, front).links, (p, q))[0].exit && At(Run(net, START, front).links, (p, q))[0].dst == q;
    }
  }

  lemma EndedStep(net: Net, s: State, e: Event, p: Name, q: Name)
    requires Enabled(net, s, e)
    ensures (p, q) in Step(net, s, e).ended <==>
            (p, q) in s.ended ||
            (e == Recieve(p, q) && At(s.links, (p, q))[0].exit && At(s.links, (p, q))[0].dst == q)
  {
    hide At, Push, Drop;
  }

  /** After any run, the connection can be recieved from if and only if something is on it and
      no step has taken an exit for q from it. */
  lemma RecievesUntilExit(net: Net, events: seq<Event>, p: Name, q: Name)
    requires Runs(net, START, events)
    ensures Runs(net, START, events + [Recieve(p, q)]) <==>
            FrontAfter(net, events, p, q).Some? && forall k :: 0 <= k < |events| ==> !TakesExit(net, events, k, p, q)
  {
    EndedByExit(net, events, p, q);
    RunsSnoc(net, events, Recieve(p, q));
    hide Runs, Run, Step, TakesExit;
  }

  /** Behind an exit for q nothing is ever recieved from the connection. */
  lemma NothingBehindExit(net: Net, before: seq<Event>, p: Name, q: Name, after: seq<Event>)
    requires Runs(net, START, before + [Recieve(p, q)] + after)
    requires var m := FrontAfter(net, before, p, q); m.Some? && m.value.exit && m.value.dst == q
    ensures Recieve(p, q) !in after
  {
    if Recieve(p, q) in after {
      var j :| 0 <= j < |after| && after[j] == Recieve(p, q);
      var events, k := before + [Recieve(p, q)] + after[..j], |before|;
      assert before + [Recieve(p, q)] + after == events + [Recieve(p, q)] + after[j + 1..];
      RunsPrefix(net, START, events + [Recieve(p, q)], after[j + 1..]);
      RunsPrefix(net, START, events, [Recieve(p, q)]);
      assert events[..k] == before && events[k] == Recieve(p, q);
      assert TakesExit(net, events, k, p, q);
      RecievesUntilExit(net, events, p, q);
    }
  }
}
