/** What a caller of `flush` can rely on. */
module LogFlush {
  import opened Bytes
  import opened LogQueue

  /** The sinks look the same from outside: they may differ in what the worker holds and has handed off. */
  predicate SameView(s: Sink, t: Sink) { t == s.(inFlight := t.inFlight, handed := t.handed) }

  /** Every message that was accepted and not dropped has reached the inner sink. */
  predicate AllOut(s: Sink) { s.handed == Survivors(s) }

  /** The sink as it would be had the worker not yet handed off its last message. */
  function HeldBack(s: Sink): Sink
    requires s.handed != []
  {
    s.(inFlight := Some(s.handed[|s.handed| - 1]), handed := s.handed[..|s.handed| - 1])
  }

  lemma HeldBackStep(before: Sink, e: Event)
    requires before.handed != [] && before.inFlight.None? && !before.exited
    requires e.Writing? || e.Resuming? || e.ShuttingDown?
    ensures var s := Apply(before, e);
      s.handed == before.handed && s.inFlight.None? && !s.exited && Apply(HeldBack(before), e) == HeldBack(s)
  {
  }

  /** For every run that ends with an idle worker, another one ends with its last message still in flight. */
  lemma {:induction false} LastMessageHeldBack(start: Sink, events: seq<Event>) returns (other: seq<Event>)
    requires start.handed == []
    requires var s := Run(start, events); s.inFlight.None? && !s.exited && s.handed != []
    ensures Run(start, other) == HeldBack(Run(start, events))
  {
    var init, e := events[..|events| - 1], events[|events| - 1];
    var before, s := Run(start, init), Run(start, events);
    if e.Handing? && before.inFlight.Some? {
      other := init;
      assert HeldBack(s) == before;
    } else if e.Handing? || e.Working? {
      assert s == before;
      other := LastMessageHeldBack(start, init);
    } else {
      other := LastMessageHeldBack(start, init);
      HeldBackStep(before, e);
      other := other + [e];
      assert other[..|other| - 1] + [e] == other;
    }
  }

  /**
   * When `flush` has seen an empty queue, a caller can be sure that everything accepted is out if and only if `shutdown`
   * has returned, or every message written was dropped: the runs that look the same agree then, and only then.
   */
  lemma FlushIsSureIff(maxQueueSize: nat, policy: DropPolicy, events: seq<Event>)
    requires maxQueueSize >= 1 && Run(New(maxQueueSize, policy), events).queue == []
    ensures var s := Run(New(maxQueueSize, policy), events);
      (forall more :: SameView(s, Run(New(maxQueueSize, policy), more)) ==> AllOut(Run(New(maxQueueSize, policy), more)))
      <==> s.exited || |s.written| == s.dropped
  {
    var start := New(maxQueueSize, policy);
    var s := Run(start, events);
    NewOk(maxQueueSize, policy);
    RunKeeps(start, events);
    if s.exited || |s.written| == s.dropped {
      forall more | SameView(s, Run(start, more)) ensures AllOut(Run(start, more)) {
        RunKeeps(start, more);
        NothingHeld(Run(start, more));
      }
    } else if s.inFlight.Some? {
      assert SameView(s, s) && !AllOut(s);
    } else {
      var other := LastMessageHeldBack(start, events);
      assert SameView(s, Run(start, other)) && !AllOut(Run(start, other));
    }
  }

  lemma NothingHeld(s: Sink)
    requires Invariant(s) && s.queue == [] && (s.exited || |s.written| == s.dropped)
    ensures AllOut(s)
  {
    assert InFlight(s) == [];
  }

  /** Once `shutdown` has returned and the queue is empty, all that was accepted and not dropped is out, in order. */
  lemma ShutdownLeavesNothing(maxQueueSize: nat, policy: DropPolicy, events: seq<Event>)
    requires maxQueueSize >= 1
    requires Run(New(maxQueueSize, policy), events).exited && Run(New(maxQueueSize, policy), events).queue == []
    ensures var s := Run(New(maxQueueSize, policy), events);
      |s.written| == |s.handed| + s.dropped && Subsequence(s.handed, s.written)
  {
    NewOk(maxQueueSize, policy);
    RunKeeps(New(maxQueueSize, policy), events);
    NothingHeld(Run(New(maxQueueSize, policy), events));
  }
}
