/** What becomes of every call of `write`, and that a shutdown lets the worker bring out all that was accepted. */
module LogDrain {
  import opened Bytes
  import opened LogQueue

  // ----- every call -----

  /** The messages that `write` was called with, in order. */
  function Calls(events: seq<Event>): seq<Message> {
    if events == [] then []
    else Calls(events[..|events| - 1]) + if events[|events| - 1].Writing? then [events[|events| - 1].m] else []
  }

  /** Calls that have completed or wait for space. */
  function Seen(s: Sink): multiset<Message> { multiset(s.written) + multiset(s.waiting) }

  lemma WriteIsSeen(s: Sink, m: Message)
    ensures Seen(Write(s, m)) == Seen(s) + multiset{m}
    ensures s.policy != BLOCK ==> Write(s, m).waiting == s.waiting && Write(s, m).written == s.written + [m]
  {
  }

  lemma ResumeKeepsSeen(s: Sink, i: nat)
    ensures Seen(Resume(s, i)) == Seen(s)
  {
    if i < |s.waiting| {
      TakenOut(s.waiting, i);
    }
  }

  lemma StepIsSeen(s: Sink, e: Event)
    ensures var r := Apply(s, e);
      && Seen(r) == Seen(s) + (if e.Writing? then multiset{e.m} else multiset{}) && r.policy == s.policy
      && (s.policy != BLOCK && s.waiting == [] ==> r.waiting == [] && r.written == s.written + if e.Writing? then [e.m] else [])
  {
    hide Resume, Seen;
    match e {
      case Writing(m) => WriteIsSeen(s, m);
      case Resuming(i) =>
        ResumeKeepsSeen(s, i);
        ResumeChanges(s, i);
      case Working => SameSeen(s, WorkerTurn(s));
      case Handing => SameSeen(s, HandOff(s));
      case ShuttingDown => SameSeen(s, s.(running := false));
    }
  }

  lemma ResumeChanges(s: Sink, i: nat)
    ensures Resume(s, i).policy == s.policy && (s.waiting == [] ==> Resume(s, i) == s)
  {
  }

  lemma SameSeen(s: Sink, r: Sink)
    requires r.written == s.written && r.waiting == s.waiting
    ensures Seen(r) == Seen(s)
  {
  }

  /**
   * In every run, each call has either completed or still waits for space, once; only under BLOCK does any wait, and under
   * the other policies calls complete in their order.
   */
  lemma {:induction false} EveryCallIsAccounted(s: Sink, events: seq<Event>)
    requires s.written == [] && s.waiting == []
    ensures var r := Run(s, events);
      && multiset(Calls(events)) == multiset(r.written) + multiset(r.waiting)
      && (s.policy != BLOCK ==> r.waiting == [] && r.written == Calls(events)) && r.policy == s.policy
  {
    hide Apply;
    if events != [] {
      var init, e := events[..|events| - 1], events[|events| - 1];
      EveryCallIsAccounted(s, init);
      StepIsSeen(Run(s, init), e);
    }
  }

  lemma TakenOut(waiting: seq<Message>, i: nat)
    requires i < |waiting|
    ensures multiset(waiting) == multiset(waiting[..i] + waiting[i + 1..]) + multiset{waiting[i]}
  {
    assert waiting == waiting[..i] + [waiting[i]] + waiting[i + 1..];
  }

  // ----- after a shutdown -----

  /** The worker hands off what it holds, and takes the next message or ends, `n` times. */
  function Turns(n: nat): seq<Event> { if n == 0 then [] else [Handing, Working] + Turns(n - 1) }

  lemma {:induction false} RunInParts(s: Sink, first: seq<Event>, more: seq<Event>)
    ensures Run(s, first + more) == Run(Run(s, first), more)
  {
    if more == [] {
      assert first + more == first;
    } else {
      var all := first + more;
      assert all[..|all| - 1] == first + more[..|more| - 1];
      RunInParts(s, first, more[..|more| - 1]);
    }
  }

  lemma OneTurn(s: Sink, n: nat)
    requires n > 0
    ensures Run(s, Turns(n)) == Run(WorkerTurn(HandOff(s)), Turns(n - 1))
  {
    RunInParts(s, [Handing, Working], Turns(n - 1));
    assert [Handing, Working][..1] == [Handing] && [Handing][..0] == [];
    assert Run(s, [Handing]) == HandOff(s);
    assert Run(s, [Handing, Working]) == WorkerTurn(HandOff(s));
  }

  lemma HandOffKeeps(s: Sink)
    ensures Survivors(HandOff(s)) == Survivors(s) && HandOff(s).inFlight == None
  {
  }

  /** Once the sink no longer runs, as many turns as messages are queued, and one more, end the worker with everything out. */
  lemma {:induction false} WorkerDrains(s: Sink, n: nat)
    requires !s.running && !s.exited && n > |s.queue|
    ensures var r := Run(s, Turns(n)); r.exited && r.queue == [] && r.inFlight == None && r.handed == Survivors(s)
    decreases |s.queue|
  {
    var next := WorkerTurn(HandOff(s));
    OneTurn(s, n);
    HandOffKeeps(s);
    WorkerKeepsSurvivors(HandOff(s));
    if s.queue == [] {
      assert Survivors(next) == next.handed + [] + [];
      EndedStays(next, n - 1);
    } else {
      WorkerDrains(next, n - 1);
    }
  }

  lemma {:induction false} EndedStays(s: Sink, n: nat)
    requires s.exited && s.inFlight == None
    ensures Run(s, Turns(n)) == s
    decreases n
  {
    if n > 0 {
      OneTurn(s, n);
      EndedStays(s, n - 1);
    }
  }

  /** In every run of a worker that has not ended: a shutdown, and then the worker alone, bring out all that was accepted. */
  lemma ShutdownDrains(s: Sink, events: seq<Event>)
    requires !Run(s, events).exited
    ensures var before := Run(s, events); var r := Run(s, events + ([ShuttingDown] + Turns(|before.queue| + 1)));
      r.exited && r.handed == Survivors(before) && r.queue == [] && r.inFlight == None
  {
    var before := Run(s, events);
    var n := |before.queue| + 1;
    RunInParts(s, events, [ShuttingDown] + Turns(n));
    RunInParts(before, [ShuttingDown], Turns(n));
    assert [ShuttingDown][..0] == [];
    WorkerDrains(Run(before, [ShuttingDown]), n);
  }

  /** After the end of the worker nothing is brought out any more, although calls of `write` still accept messages. */
  lemma {:induction false} EndedBringsNothing(s: Sink, events: seq<Event>)
    requires s.exited && s.inFlight == None
    ensures var r := Run(s, events); r.exited && r.inFlight == None && r.handed == s.handed
  {
    if events != [] {
      EndedBringsNothing(s, events[..|events| - 1]);
    }
  }

  lemma LateMessageIsAccepted(s: Sink, m: Message)
    requires s.exited && |s.queue| < s.maxQueueSize
    ensures var r := Apply(s, Writing(m)); Survivors(r) == Survivors(s) + [m] && r.dropped == s.dropped
  {
    Assoc(s.handed + InFlight(s), s.queue, [m]);
  }
}
