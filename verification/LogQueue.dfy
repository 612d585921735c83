/** The bounded queue between the threads that log and the thread that writes, under every interleaving of locked steps. */
module LogQueue {
  import opened Bytes

  type Message = string

  datatype DropPolicy = DROP_OLDEST | DROP_NEWEST | BLOCK

  /** `inFlight` is with the worker, outside the lock; `handed` reached the inner sink. Writers in `waiting` sleep for
      space. `written` lists the messages of completed writes in the order of their completion. */
  datatype Sink = Sink(
    maxQueueSize: nat,
    policy: DropPolicy,
    queue: seq<Message>,
    inFlight: Option<Message>,
    handed: seq<Message>,
    waiting: seq<Message>,
    dropped: nat,
    running: bool,
    exited: bool,
    written: seq<Message>)

  function New(maxQueueSize: nat, policy: DropPolicy): Sink {
    Sink(maxQueueSize, policy, [], None, [], [], 0, true, false, [])
  }

  // ----- steps -----

  function Pushed(s: Sink, m: Message): Sink { s.(queue := s.queue + [m], written := s.written + [m]) }

  function Refused(s: Sink, m: Message): Sink { s.(dropped := s.dropped + 1, written := s.written + [m]) }

  /** `write` up to its end, or up to the wait of the policy BLOCK. */
  function Write(s: Sink, m: Message): Sink {
    if |s.queue| < s.maxQueueSize then Pushed(s, m)
    else match s.policy
      case DROP_OLDEST =>
        Sink(s.maxQueueSize, s.policy, (if s.queue == [] then [] else s.queue[1..]) + [m], s.inFlight, s.handed, s.waiting,
             s.dropped + 1, s.running, s.exited, s.written + [m])
      case DROP_NEWEST => Refused(s, m)
      case BLOCK => s.(waiting := s.waiting + [m])
  }

  /** A blocked writer goes on, with space or after its timeout. */
  function Resume(s: Sink, i: nat): Sink {
    if i >= |s.waiting| then s
    else
      var s', m := s.(waiting := s.waiting[..i] + s.waiting[i + 1..]), s.waiting[i];
      if |s.queue| < s.maxQueueSize then Pushed(s', m) else Refused(s', m)
  }

  /** The worker under the lock: takes a message, ends, or sleeps on. */
  function WorkerTurn(s: Sink): Sink {
    if s.exited || s.inFlight.Some? then s
    else if s.queue != [] then s.(queue := s.queue[1..], inFlight := Some(s.queue[0]))
    else if !s.running then s.(exited := true)
    else s
  }

  /** The inner sink returns or throws. */
  function HandOff(s: Sink): Sink {
    if s.inFlight.None? then s else s.(inFlight := None, handed := s.handed + [s.inFlight.value])
  }

  datatype Event = Writing(m: Message) | Resuming(i: nat) | Working | Handing | ShuttingDown

  function Apply(s: Sink, e: Event): Sink {
    match e
    case Writing(m) => Write(s, m)
    case Resuming(i) => Resume(s, i)
    case Working => WorkerTurn(s)
    case Handing => HandOff(s)
    case ShuttingDown => s.(running := false)
  }

  function Run(s: Sink, events: seq<Event>): Sink {
    if events == [] then s else Apply(Run(s, events[..|events| - 1]), events[|events| - 1])
  }

  // ----- order -----

  /** `a` is `b` without some elements: element k of `a` is element `at[k]` of `b`. */
  predicate Embeds(a: seq<Message>, b: seq<Message>, at: seq<nat>) {
    && |at| == |a|
    && (forall k | 0 <= k < |at| :: at[k] < |b| && b[at[k]] == a[k])
    && (forall j, k | 0 <= j < k < |at| :: at[j] < at[k])
  }

  ghost predicate Subsequence(a: seq<Message>, b: seq<Message>) { exists at: seq<nat> :: Embeds(a, b, at) }

  lemma AppendBoth(a: seq<Message>, b: seq<Message>, m: Message)
    requires Subsequence(a, b)
    ensures Subsequence(a + [m], b + [m])
  {
    var at: seq<nat> :| Embeds(a, b, at);
    assert Embeds(a + [m], b + [m], at + [|b|]);
  }

  lemma AppendRight(a: seq<Message>, b: seq<Message>, m: Message)
    requires Subsequence(a, b)
    ensures Subsequence(a, b + [m])
  {
    var at: seq<nat> :| Embeds(a, b, at);
    assert Embeds(a, b + [m], at);
  }

  lemma RemoveOne(a: seq<Message>, b: seq<Message>, i: nat)
    requires Subsequence(a, b) && i < |a|
    ensures Subsequence(a[..i] + a[i + 1..], b)
  {
    var at: seq<nat> :| Embeds(a, b, at);
    assert Embeds(a[..i] + a[i + 1..], b, at[..i] + at[i + 1..]);
  }

  // ----- the invariant -----

  function InFlight(s: Sink): seq<Message> { if s.inFlight.Some? then [s.inFlight.value] else [] }

  /** What was accepted and not dropped: handed off, in flight, queued. */
  function Survivors(s: Sink): seq<Message> { s.handed + InFlight(s) + s.queue }

  ghost predicate Invariant(s: Sink) {
    && |s.queue| <= s.maxQueueSize
    && |s.written| == |s.handed| + |InFlight(s)| + |s.queue| + s.dropped
    && Subsequence(Survivors(s), s.written)
    && (s.exited ==> s.inFlight.None?)
  }

  lemma PushedKeeps(s: Sink, m: Message)
    requires Invariant(s) && |s.queue| < s.maxQueueSize
    ensures Invariant(Pushed(s, m)) && Survivors(Pushed(s, m)) == Survivors(s) + [m]
  {
    AppendBoth(Survivors(s), s.written, m);
    Assoc(s.handed + InFlight(s), s.queue, [m]);
  }

  lemma WriteKeeps(s: Sink, m: Message)
    requires Invariant(s) && s.maxQueueSize >= 1
    ensures Invariant(Write(s, m))
  {
    if |s.queue| < s.maxQueueSize {
      PushedKeeps(s, m);
    } else if s.policy.DROP_NEWEST? {
      AppendRight(Survivors(s), s.written, m);
    } else if s.policy.DROP_OLDEST? {
      var before := s.handed + InFlight(s);
      var all := Survivors(s);
      RemoveOne(all, s.written, |before|);
      assert all[..|before|] == before && all[|before| + 1..] == s.queue[1..];
      AppendBoth(before + s.queue[1..], s.written, m);
      Assoc(before, s.queue[1..], [m]);
    }
  }

  lemma ApplyKeeps(s: Sink, e: Event)
    requires Invariant(s) && s.maxQueueSize >= 1
    ensures Invariant(Apply(s, e)) && Apply(s, e).maxQueueSize == s.maxQueueSize && Apply(s, e).policy == s.policy
  {
    match e {
      case Writing(m) => WriteKeeps(s, m);
      case Resuming(i) =>
        if i < |s.waiting| {
          var s' := s.(waiting := s.waiting[..i] + s.waiting[i + 1..]);
          if |s.queue| < s.maxQueueSize {
            PushedKeeps(s', s.waiting[i]);
          } else {
            AppendRight(Survivors(s), s.written, s.waiting[i]);
          }
        }
      case Working =>
        WorkerKeepsSurvivors(s);
      case Handing =>
        assert s.inFlight.Some? ==> Survivors(HandOff(s)) == Survivors(s);
      case ShuttingDown =>
    }
  }

  lemma WorkerKeepsSurvivors(s: Sink)
    ensures Survivors(WorkerTurn(s)) == Survivors(s)
  {
    if !s.exited && s.inFlight.None? && s.queue != [] {
      assert s.queue == [s.queue[0]] + s.queue[1..];
    }
  }

  lemma {:induction false} RunKeeps(s: Sink, events: seq<Event>)
    requires Invariant(s) && s.maxQueueSize >= 1
    ensures Invariant(Run(s, events)) && Run(s, events).maxQueueSize == s.maxQueueSize && Run(s, events).policy == s.policy
  {
    if events != [] {
      RunKeeps(s, events[..|events| - 1]);
      ApplyKeeps(Run(s, events[..|events| - 1]), events[|events| - 1]);
    }
  }

  lemma NewOk(maxQueueSize: nat, policy: DropPolicy)
    ensures Invariant(New(maxQueueSize, policy))
  {
    var s, none: seq<nat> := New(maxQueueSize, policy), [];
    assert Survivors(s) == [];
    assert Embeds(Survivors(s), s.written, none);
  }

  /** Order, count and bound in every run of every policy. */
  lemma QueueIsSafe(maxQueueSize: nat, policy: DropPolicy, events: seq<Event>)
    requires maxQueueSize >= 1
    ensures var s := Run(New(maxQueueSize, policy), events);
      && Subsequence(s.handed + InFlight(s) + s.queue, s.written)
      && |s.written| == |s.handed| + |InFlight(s)| + |s.queue| + s.dropped
      && |s.queue| <= maxQueueSize
  {
    NewOk(maxQueueSize, policy);
    RunKeeps(New(maxQueueSize, policy), events);
  }

  /** The worker ends only after shutdown, with nothing queued or in flight: all that survived has been handed off. */
  lemma WorkerEndsDrained(maxQueueSize: nat, policy: DropPolicy, events: seq<Event>, e: Event)
    requires maxQueueSize >= 1
    requires var s := Run(New(maxQueueSize, policy), events); !s.exited && Apply(s, e).exited
    ensures var s := Apply(Run(New(maxQueueSize, policy), events), e);
      && !s.running && s.queue == [] && s.inFlight.None?
      && |s.written| == |s.handed| + s.dropped && Subsequence(s.handed, s.written)
  {
    var s := Run(New(maxQueueSize, policy), events);
    QueueIsSafe(maxQueueSize, policy, events);
    assert s.handed + InFlight(s) + s.queue == s.handed;
  }

  /** When `flush` sees an empty queue, at most the message in flight has still to reach the inner sink. */
  lemma FlushLeavesAtMostOne(maxQueueSize: nat, policy: DropPolicy, events: seq<Event>)
    requires maxQueueSize >= 1 && Run(New(maxQueueSize, policy), events).queue == []
    ensures var s := Run(New(maxQueueSize, policy), events);
      && s.handed <= Survivors(s) && |Survivors(s)| - |s.handed| <= 1
      && |s.written| - s.dropped - |s.handed| <= 1
      && (s.handed == Survivors(s) <==> s.inFlight.None?)
  {
    QueueIsSafe(maxQueueSize, policy, events);
    var s := Run(New(maxQueueSize, policy), events);
    assert Survivors(s) == s.handed + InFlight(s);
    assert s.inFlight.Some? ==> |Survivors(s)| == |s.handed| + 1;
  }

  /** So `flush` can return before a message is out: one write, the worker takes it, and the queue is empty. */
  lemma FlushCanBeEarly(maxQueueSize: nat, policy: DropPolicy, m: Message)
    requires maxQueueSize >= 1
    ensures var s := Run(New(maxQueueSize, policy), [Writing(m), Working]);
      s.queue == [] && s.written == [m] && s.dropped == 0 && s.handed == []
  {
    var events := [Writing(m), Working];
    assert events[..1] == [Writing(m)] && events[..1][..0] == [];
    assert Run(New(maxQueueSize, policy), events[..1]) == Pushed(New(maxQueueSize, policy), m);
  }

  /** Without DROP_OLDEST what was accepted stays: later survivors only follow it. */
  lemma AcceptedStays(s: Sink, e: Event)
    requires !s.policy.DROP_OLDEST?
    ensures Survivors(s) <= Survivors(Apply(s, e))
  {
    match e {
      case Writing(m) => Assoc(s.handed + InFlight(s), s.queue, [m]);
      case Resuming(i) =>
        if i < |s.waiting| {
          Assoc(s.handed + InFlight(s), s.queue, [s.waiting[i]]);
        }
      case Working => WorkerKeepsSurvivors(s);
      case Handing => assert s.inFlight.Some? ==> Survivors(HandOff(s)) == Survivors(s);
      case ShuttingDown =>
    }
  }

  predicate IsSuffix(a: seq<Message>, b: seq<Message>) { |a| <= |b| && b[|b| - |a|..] == a }

  lemma SuffixGrows(a: seq<Message>, b: seq<Message>, m: Message)
    requires IsSuffix(a, b)
    ensures IsSuffix(a + [m], b + [m]) && (a != [] ==> IsSuffix(a[1..], b) && IsSuffix(a[1..] + [m], b + [m]))
  {
    assert b == b[..|b| - |a|] + a;
  }

  /** With DROP_OLDEST, in every run, what is queued is always the newest of what was written. */
  lemma {:induction false} NewestAreQueued(maxQueueSize: nat, events: seq<Event>)
    requires maxQueueSize >= 1
    ensures var s := Run(New(maxQueueSize, DROP_OLDEST), events);
      IsSuffix(s.queue, s.written) && s.waiting == [] && s.policy == DROP_OLDEST && s.maxQueueSize == maxQueueSize
  {
    if events != [] {
      var init, last := events[..|events| - 1], events[|events| - 1];
      NewestAreQueued(maxQueueSize, init);
      var before := Run(New(maxQueueSize, DROP_OLDEST), init);
      SuffixGrows(before.queue, before.written, if last.Writing? then last.m else []);
    }
  }

  // ----- the object -----

  class AsyncLogSink {
    const maxQueueSize: nat
    const policy: DropPolicy
    var queue: seq<Message>
    var inFlight: Option<Message>
    var droppedCount: nat
    var running: bool
    var exited: bool
    ghost var handed: seq<Message>
    ghost var waiting: seq<Message>
    ghost var written: seq<Message>

    ghost function Snapshot(): Sink
      reads this
    {
      Sink(maxQueueSize, policy, queue, inFlight, handed, waiting, droppedCount, running, exited, written)
    }

    constructor (maxQueueSize: nat, policy: DropPolicy)
      ensures Snapshot() == New(maxQueueSize, policy)
    {
      this.maxQueueSize, this.policy := maxQueueSize, policy;
      queue, inFlight, droppedCount, running, exited := [], None, 0, true, false;
      handed, waiting, written := [], [], [];
    }

    method Push(m: Message)
      modifies this`queue, this`written
      ensures Snapshot() == Pushed(old(Snapshot()), m)
    {
      queue := queue + [m];
      written := written + [m];
    }

    method Refuse(m: Message)
      modifies this`droppedCount, this`written
      ensures Snapshot() == Refused(old(Snapshot()), m)
    {
      droppedCount := droppedCount + 1;
      written := written + [m];
    }

    method Write(m: Message) returns (blocked: bool)
      requires maxQueueSize >= 1
      modifies this
      ensures Snapshot() == Apply(old(Snapshot()), Writing(m))
      ensures blocked <==> policy == BLOCK && old(|queue|) >= maxQueueSize
    {
      blocked := false;
      if |queue| >= maxQueueSize {
        match policy {
          case DROP_OLDEST =>
            queue := queue[1..];
            droppedCount := droppedCount + 1;
            Push(m);
          case DROP_NEWEST =>
            Refuse(m);
          case BLOCK =>
            waiting := waiting + [m];
            blocked := true;
        }
      } else {
        Push(m);
      }
    }

    /** What a blocked writer does when its wait is over. */
    method AfterWait(m: Message, ghost i: nat)
      requires i < |waiting| && waiting[i] == m
      modifies this
      ensures Snapshot() == Apply(old(Snapshot()), Resuming(i))
    {
      waiting := waiting[..i] + waiting[i + 1..];
      if |queue| < maxQueueSize {
        Push(m);
      } else {
        Refuse(m);
      }
    }

    /** The worker between two writes to the inner sink. */
    method TakeOrEnd()
      requires !exited && inFlight.None?
      modifies this
      ensures Snapshot() == Apply(old(Snapshot()), Working)
    {
      if queue != [] {
        inFlight := Some(queue[0]);
        queue := queue[1..];
      } else if !running {
        exited := true;
      }
    }

    method WriteInner()
      requires inFlight.Some?
      modifies this
      ensures Snapshot() == Apply(old(Snapshot()), Handing)
    {
      handed := handed + [inFlight.value];
      inFlight := None;
    }

    /** The part of `shutdown` before the join. */
    method Shutdown()
      modifies this`running
      ensures Snapshot() == Apply(old(Snapshot()), ShuttingDown)
    {
      running := false;
    }

    /** `shutdown` with its join, when only the worker is left: all that was accepted is out when it returns. */
    method ShutdownAndJoin()
      requires Invariant(Snapshot()) && (exited ==> queue == [])
      modifies this
      ensures exited && queue == [] && handed == old(Survivors(Snapshot()))
    {
      Shutdown();
      if exited {
        assert handed + InFlight(Snapshot()) + queue == handed;
      } else {
        WorkerLoop();
      }
    }

    /** The worker alone after shutdown: it hands off everything that was left, in order, and ends. */
    method WorkerLoop()
      requires !exited && !running && Invariant(Snapshot())
      modifies this
      ensures exited && queue == [] && handed == old(Survivors(Snapshot()))
    {
      hide Invariant, Subsequence;
      if inFlight.Some? {
        WriteInner();
      }
      while !exited
        invariant inFlight.None? && !running && handed + queue == old(Survivors(Snapshot()))
        invariant exited ==> queue == []
        decreases |queue|, !exited
      {
        var first := queue != [];
        assert first ==> queue == [queue[0]] + queue[1..];
        TakeOrEnd();
        if inFlight.Some? {
          WriteInner();
        }
      }
    }
  }
}
