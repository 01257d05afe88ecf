/** What writeStream answers (src/SoapySDR/Streaming.cpp), read off the events around the call: when an underflow is
    reported, when a call times out, and how much is accepted otherwise. */
module SoapyReports {
  import opened SoapyRing

  /** How many of the callbacks come without a report of a lost deadline: each takes a buffer if there is one. */
  function Demand(events: seq<Event>): nat {
    if events == [] then 0
    else Demand(events[..|events| - 1]) + (if events[|events| - 1] == Callback(false) then 1 else 0)
  }

  /** The number of filled buffers falls by the demand, down to none. */
  lemma {:induction false} FilledIs(s: Shared, events: seq<Event>)
    requires s.filled >= 0
    ensures AllHappened(s, events).filled == if Demand(events) <= s.filled then s.filled - Demand(events) else 0
  {
    if events != [] {
      FilledIs(s, events[..|events| - 1]);
    }
  }

  lemma {:induction false} DemandIs(events: seq<Event>)
    ensures Demand(events) > 0 <==> Callback(false) in events
  {
    if events != [] {
      var last := |events| - 1;
      DemandIs(events[..last]);
      assert events == events[..last] + [events[last]];
    }
  }

  /** Callback k reports a lost deadline, or finds that those before it have taken all buffers. */
  predicate Starves(s: Shared, events: seq<Event>, k: nat)
    requires k < |events|
  {
    events[k].Callback? && (events[k].underflow || Demand(events[..k]) >= s.filled)
  }

  /** A callback has starved and the status has not been polled since. */
  ghost predicate Unpolled(s: Shared, events: seq<Event>) {
    || (s.underflow && PollStatus !in events)
    || exists k: nat :: k < |events| && Starves(s, events, k) && PollStatus !in events[k + 1..]
  }

  /** An underflow is noted exactly then. */
  lemma {:induction false} UnderflowIs(s: Shared, events: seq<Event>)
    requires s.filled >= 0
    ensures AllHappened(s, events).underflow <==> Unpolled(s, events)
  {
    if events != [] {
      var front, e := events[..|events| - 1], events[|events| - 1];
      assert events == front + [e];
      UnderflowIs(s, front);
      FilledIs(s, front);
      UnpolledNext(s, front, e);
    }
  }

  lemma UnpolledNext(s: Shared, front: seq<Event>, e: Event)
    ensures Unpolled(s, front + [e])
       <==> (e.Callback? && (e.underflow || Demand(front) >= s.filled)) || (Unpolled(s, front) && e != PollStatus)
  {
    var events := front + [e];
    assert events[..|front|] == front && events[|front| + 1..] == [];
    forall k: nat | k < |front|
      ensures events[..k] == front[..k] && events[k + 1..] == front[k + 1..] + [e]
    {}
    if Unpolled(s, front) && e != PollStatus && !(s.underflow && PollStatus !in front) {
      var k: nat :| k < |front| && Starves(s, front, k) && PollStatus !in front[k + 1..];
      assert Starves(s, events, k);
    }
    if e.Callback? && (e.underflow || Demand(front) >= s.filled) {
      assert Starves(s, events, |front|);
    }
    if Unpolled(s, events) && !(s.underflow && PollStatus !in events) {
      var k: nat :| k < |events| && Starves(s, events, k) && PollStatus !in events[k + 1..];
      if k < |front| {
        assert Starves(s, front, k);
      }
    }
  }

  lemma {:induction false} HappenedAppend(s: Shared, a: seq<Event>, b: seq<Event>)
    ensures AllHappened(s, a + b) == AllHappened(AllHappened(s, a), b)
    decreases |b|
  {
    if b == [] {
      assert a + b == a;
    } else {
      var last := |b| - 1;
      assert a + b == a + b[..last] + [b[last]] && (a + b)[..|a + b| - 1] == a + b[..last];
      HappenedAppend(s, a, b[..last]);
    }
  }

  /** Waiting for one of n filled buffers is in vain if and only if no callback takes one. */
  lemma {:induction false} WaitedInVain(s: Shared, events: seq<Event>, n: nat)
    requires 0 <= s.filled <= n && n > 0
    ensures Waited(s, events, n).filled == n <==> s.filled == n && Callback(false) !in events
    decreases |events|
  {
    if s.filled == n && events != [] {
      assert events == [events[0]] + events[1..];
      WaitedInVain(Happened(s, events[0]), events[1..], n);
    }
  }

  /** Whether a reset is due when a call without room left looks at the ring. */
  predicate ResetDue(s: Shared, i: Interference) {
    s.reset || NewSampleRate in i.entering
  }

  /** What the call starts from, and the events from there to the check for an underflow. */
  function From(s: Shared, i: Interference): Shared {
    if ResetDue(s, i) then Shared(0, false, false) else s
  }

  function Since(s: Shared, i: Interference): seq<Event> {
    if ResetDue(s, i) then i.checking else i.entering + i.checking
  }

  function Least(a: nat, b: nat): nat {
    if a <= b then a else b
  }

  /** The three answers: an underflow if and only if one is noted and not polled when the writer looks; a timeout if and
      only if there is none, no reset, and all n buffers were filled and stayed so; elements otherwise. An unfinished
      buffer is filled without looking, unless a reset is requested. */
  lemma AnswerIs(buffered: nat, s: Shared, numElems: nat, i: Interference, n: nat, size: nat)
    requires 0 <= s.filled <= n && n > 0
    ensures var a := Writing(buffered, s, numElems, i, n, size).0;
      if buffered > 0 && !s.reset then a == Elements(Least(buffered, numElems))
      else
        && (a.Underflow? <==> Unpolled(From(s, i), Since(s, i)))
        && (a.Timeout? <==> (!Unpolled(From(s, i), Since(s, i)) && !ResetDue(s, i) && s.filled == n
                             && Callback(false) !in Since(s, i) && Callback(false) !in i.waiting))
        && (a.Elements? ==> a.n == Least(size, numElems))
  {
    if buffered == 0 || s.reset {
      var entered := AllHappened(if buffered > 0 then s.(filled := s.filled + 1) else s, i.entering);
      ResetStays(if buffered > 0 then s.(filled := s.filled + 1) else s, i.entering);
      assert entered.reset == ResetDue(s, i);
      HappenedAppend(s, i.entering, i.checking);
      var seen := AllHappened(From(s, i), Since(s, i));
      assert seen == AllHappened(if entered.reset then Shared(0, false, false) else entered, i.checking);
      UnderflowIs(From(s, i), Since(s, i));
      FilledIs(From(s, i), Since(s, i));
      DemandIs(Since(s, i));
      LookingIs(seen, i, n, size);
    }
  }

  lemma LookingIs(s: Shared, i: Interference, n: nat, size: nat)
    requires 0 <= s.filled <= n && n > 0
    ensures var a := Looking(s, i, n, size).answer;
      && (a.Underflow? <==> s.underflow)
      && (a.Timeout? <==> !s.underflow && s.filled == n && Callback(false) !in i.waiting)
      && (a.Elements? ==> a.n == size)
  {
    WaitedInVain(s, i.waiting, n);
  }

  /** An underflow is reported once: afterwards the ring is empty and none is noted. */
  lemma ReportedOnce(buffered: nat, s: Shared, numElems: nat, i: Interference, n: nat, size: nat)
    requires Writing(buffered, s, numElems, i, n, size).0.Underflow?
    ensures var after := Writing(buffered, s, numElems, i, n, size).2; after.filled == 0 && !after.underflow
  {
    var seen := Seen(buffered, s, i);
    EmptyStays(seen.(filled := 0), i.draining);
  }

  /** What the writer finds when it checks for an underflow. */
  function Seen(buffered: nat, s: Shared, i: Interference): Shared {
    var dropped := buffered > 0 && s.reset;
    var entered := AllHappened(if dropped then s.(filled := s.filled + 1) else s, i.entering);
    AllHappened(if entered.reset then Shared(0, false, false) else entered, i.checking)
  }
}
