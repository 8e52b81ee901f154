/** The message dispatcher of the multicast sniffer, MulticastForwarding/McastSniffer.cpp: one thread that calls
    pushMessage, one that executes run, and one that calls stop and the destructor, in any interleaving. A state
    holds the shared fields, where each thread is, and the history; a turn is one access to what is shared. */
module DispatcherSteps {
  import opened Bytes

  const DEFAULT_QUEUE_SIZE: nat := 100
  const UDP_MAX_BUFFER_SIZE: nat := 64 * 1024

  datatype Packet = Packet(data: seq<Byte>, group: nat, gport: int, source: nat, sport: int, subscriber: nat)

  /** The arguments of pushMessage; a null pointer is None. */
  datatype Arguments = Arguments(data: Option<seq<Byte>>, datalen: int, group: nat, gport: int, source: nat, sport: int,
    subscriber: Option<nat>)

  /** The caller's buffer has the bytes that the caller says it has. */
  type Request = r: Arguments | r.data.Some? ==> r.datalen <= |r.data.value|
    witness Arguments(None, 0, 0, 0, 0, 0, None)

  predicate Accepts(r: Request) {
    r.subscriber.Some? && r.data.Some? && 0 < r.datalen <= UDP_MAX_BUFFER_SIZE
  }

  function PacketOf(r: Request): Packet
    requires Accepts(r)
  {
    Packet(r.data.value[..r.datalen], r.group, r.gport, r.source, r.sport, r.subscriber.value)
  }

  /** A message in the queue; its buffer has the number id, and live says that the pointer to it is not null. */
  datatype Node = Node(id: nat, packet: Packet, live: bool)

  /** pushMessage: outside it, after the checks, after the push */
  datatype Producer = Idle | Room(packet: Packet) | Pushed

  /** run: before each test, wait, reset, front, delete and pop */
  datatype Consumer =
    | Loop | Look | Waiting | Woken | Checking
    | Again | LookAgain | Taking | Freeing(held: nat) | Popping(held: nat)
    | Returned

  /** stop and the destructor: outside both, after the flag is set, emptying the queue, after the handle is closed */
  datatype Controller = Ready | Raised(destroying: bool) | Draining | DrainPop(held: nat) | Closed

  datatype State = State(
    queue: seq<Node>, event: bool, quit: bool,
    producer: Producer, consumer: Consumer, controller: Controller,
    accepted: seq<Packet>, delivered: seq<Packet>, frees: seq<nat>, broken: bool)

  datatype Command = Stop | Destroy

  datatype Turn = Push(request: Request) | Run | Control(command: Command)

  const START: State := State([], false, false, Idle, Loop, Ready, [], [], [], false)

  /** A use of memory that is gone: a second delete, or front or pop where the node is no more */
  function Break(s: State): State {
    s.(broken := true)
  }

  function ProducerTurn(s: State, r: Request): State {
    match s.producer
    case Idle =>
      if !Accepts(r) || |s.queue| >= DEFAULT_QUEUE_SIZE then s else s.(producer := Room(PacketOf(r)))
    case Room(p) =>
      s.(queue := s.queue + [Node(|s.accepted|, p, true)], accepted := s.accepted + [p], producer := Pushed)
    case Pushed => s.(event := true, producer := Idle)
  }

  function ConsumerTurn(s: State): State {
    match s.consumer
    case Loop => s.(consumer := if s.quit then Returned else Look)
    case Look => s.(consumer := if s.queue == [] then Waiting else Again)
    case Waiting =>
      if s.controller.Closed? then s.(quit := true, consumer := Checking)
      else if s.event then s.(event := false, consumer := Woken) else s
    case Woken => s.(event := false, consumer := Checking)
    case Checking => s.(consumer := if s.quit then Returned else Again)
    case Again => s.(consumer := if s.quit then Loop else LookAgain)
    case LookAgain => s.(consumer := if s.queue == [] then Loop else Taking)
    case Taking =>
      if s.queue == [] then Break(s)
      else if !s.queue[0].live then s.(consumer := Popping(s.queue[0].id))
      else s.(delivered := s.delivered + [s.queue[0].packet], consumer := Freeing(s.queue[0].id))
    case Freeing(id) =>
      if s.queue == [] || s.queue[0].id != id || !s.queue[0].live then Break(s)
      else s.(frees := s.frees + [id], queue := s.queue[0 := s.queue[0].(live := false)], consumer := Popping(id))
    case Popping(id) =>
      if s.queue == [] || s.queue[0].id != id then Break(s) else s.(queue := s.queue[1..], consumer := Again)
    case Returned => s
  }

  function ControllerTurn(s: State, c: Command): State {
    match s.controller
    case Ready =>
      if c == Destroy && s.quit then s.(controller := Draining)
      else s.(quit := true, controller := Raised(c == Destroy))
    case Raised(destroying) => s.(event := true, controller := if destroying then Draining else Ready)
    case Draining =>
      if s.queue == [] then s.(controller := Closed)
      else if !s.queue[0].live then s.(controller := DrainPop(s.queue[0].id))
      else s.(frees := s.frees + [s.queue[0].id], queue := s.queue[0 := s.queue[0].(live := false)],
              controller := DrainPop(s.queue[0].id))
    case DrainPop(id) =>
      if s.queue == [] || s.queue[0].id != id then Break(s) else s.(queue := s.queue[1..], controller := Draining)
    case Closed => s
  }

  function After(s: State, t: Turn): State {
    if s.broken then s
    else match t
      case Push(r) => ProducerTurn(s, r)
      case Run => ConsumerTurn(s)
      case Control(c) => ControllerTurn(s, c)
  }

  /** The state after a script of turns */
  function Trace(s: State, script: seq<Turn>): State {
    if script == [] then s else After(Trace(s, script[..|script| - 1]), script[|script| - 1])
  }
}

module DispatcherSafety {
  import opened DispatcherSteps

  function Upto(n: nat): (r: seq<nat>)
    ensures |r| == n
  {
    seq(n, i => i)
  }

  function Popped(s: State): int {
    |s.accepted| - |s.queue|
  }

  /** The message at the front has lost its buffer and is still in the queue. */
  function Dead(s: State): nat {
    if s.consumer.Popping? || s.controller.DrainPop? then 1 else 0
  }

  predicate Emptying(s: State) {
    s.controller.Draining? || s.controller.DrainPop? || s.controller.Closed?
  }

  /** The consumer has a message, or is about to take one. */
  predicate InHand(s: State) {
    s.consumer.Taking? || s.consumer.Freeing? || s.consumer.Popping?
  }

  /** Nothing that stop came too late for is under way. */
  predicate Settled(s: State) {
    !InHand(s) && !(s.consumer.LookAgain? && s.queue != []) && !s.producer.Room?
  }

  /** The queue holds, in order, the messages accepted last; only the first may have lost its buffer. */
  ghost predicate QueueOf(s: State) {
    && |s.queue| <= |s.accepted|
    && forall i {:trigger s.queue[i]} :: 0 <= i < |s.queue| ==>
         s.queue[i] == Node(Popped(s) + i, s.accepted[Popped(s) + i], !(i == 0 && Dead(s) == 1))
  }

  /** A consumer that waits on a clear event has nothing to do, or somebody is about to signal. */
  predicate NoLostWakeup(s: State) {
    && (s.consumer.Waiting? && !s.event ==> s.queue == [] || s.producer.Pushed?)
    && ((s.consumer.Waiting? || s.consumer.Look?) && !s.event && s.quit ==> s.controller.Raised? || s.controller.Closed?)
  }

  predicate Bounded(s: State) {
    |s.queue| <= DEFAULT_QUEUE_SIZE && (s.producer.Room? ==> |s.queue| < DEFAULT_QUEUE_SIZE)
  }

  /** Deliveries are the first messages accepted, in order; buffers are freed in order, each one once. */
  ghost predicate History(s: State) {
    && |s.delivered| <= |s.accepted| && s.delivered == s.accepted[..|s.delivered|]
    && |s.queue| <= |s.accepted| && s.frees == Upto(Popped(s) + Dead(s))
  }

  /** Where the threads are agrees with the history. */
  predicate Phase(s: State) {
    if Emptying(s) then
      && s.quit && Settled(s) && |s.delivered| <= Popped(s)
      && (s.controller.DrainPop? ==> s.queue != [] && s.controller.held == Popped(s))
      && (s.controller.Closed? ==> s.queue == [])
    else
      && |s.delivered| == Popped(s) + (if s.consumer.Freeing? || s.consumer.Popping? then 1 else 0)
      && (s.controller.Raised? ==> s.quit)
      && (InHand(s) ==> s.queue != [])
      && (s.consumer.Freeing? || s.consumer.Popping? ==> s.consumer.held == Popped(s))
  }

  ghost predicate Inv(s: State) {
    !s.broken && QueueOf(s) && History(s) && Phase(s) && Bounded(s) && NoLostWakeup(s)
  }

  lemma StartIsFine()
    ensures Inv(START)
  {
  }

  /** What the destructor needs: nothing under way when it begins to empty the queue, and no new message after. */
  predicate Orderly(s: State, t: Turn) {
    && (Emptying(After(s, t)) && !Emptying(s) ==> Settled(s))
    && (Emptying(s) ==> Quiet(t))
  }

  /** The sniffer accepts no more. */
  predicate Quiet(t: Turn) {
    t.Push? ==> !Accepts(t.request)
  }

  lemma ProducerKeeps(s: State, r: Request)
    requires Inv(s) && Orderly(s, Push(r))
    ensures Inv(ProducerTurn(s, r))
  {
    var s' := ProducerTurn(s, r);
    if s.producer.Room? {
      assert QueueOf(s') by {
        forall i | 0 <= i < |s'.queue|
          ensures s'.queue[i] == Node(Popped(s') + i, s'.accepted[Popped(s') + i], !(i == 0 && Dead(s') == 1))
        {
          if i < |s.queue| {
            assert s.queue[i] == s'.queue[i];
          }
        }
      }
      assert s'.accepted[..|s.delivered|] == s.accepted[..|s.delivered|];
    }
  }

  lemma Shifted(s: State, s': State)
    requires QueueOf(s) && s.queue != [] && s'.queue == s.queue[1..] && s'.accepted == s.accepted && Dead(s') == 0
    ensures QueueOf(s')
  {
    forall i | 0 <= i < |s'.queue|
      ensures s'.queue[i] == Node(Popped(s') + i, s'.accepted[Popped(s') + i], !(i == 0 && Dead(s') == 1))
    {
      assert s'.queue[i] == s.queue[i + 1];
    }
  }

  lemma Freed(s: State, s': State)
    requires QueueOf(s) && s.queue != [] && s'.queue == s.queue[0 := s.queue[0].(live := false)] && s'.accepted == s.accepted
    requires Dead(s') == 1 && Dead(s) == 0
    ensures QueueOf(s')
  {
    assert s.queue[0] == Node(Popped(s), s.accepted[Popped(s)], true);
    forall i | 0 <= i < |s'.queue|
      ensures s'.queue[i] == Node(Popped(s') + i, s'.accepted[Popped(s') + i], !(i == 0 && Dead(s') == 1))
    {
      if i > 0 {
        assert s'.queue[i] == s.queue[i];
      }
    }
  }

  lemma OneMore(n: nat)
    ensures Upto(n) + [n] == Upto(n + 1)
  {
  }

  lemma ConsumerTakes(s: State)
    requires Inv(s) && s.consumer.Taking?
    ensures Inv(ConsumerTurn(s))
  {
    var n := |s.delivered|;
    assert s.queue[0] == Node(Popped(s), s.accepted[Popped(s)], true);
    assert s.accepted[..n] + [s.accepted[n]] == s.accepted[..n + 1];
    assert QueueOf(ConsumerTurn(s));
  }

  lemma ConsumerFrees(s: State)
    requires Inv(s) && s.consumer.Freeing?
    ensures Inv(ConsumerTurn(s))
  {
    assert s.queue[0] == Node(Popped(s), s.accepted[Popped(s)], true);
    Freed(s, ConsumerTurn(s));
    OneMore(Popped(s));
  }

  lemma ConsumerPops(s: State)
    requires Inv(s) && s.consumer.Popping?
    ensures Inv(ConsumerTurn(s))
  {
    assert s.queue[0].id == Popped(s);
    Shifted(s, ConsumerTurn(s));
  }

  lemma SameQueue(s: State, s': State)
    requires QueueOf(s) && History(s) && Dead(s') == Dead(s)
    requires s'.queue == s.queue && s'.accepted == s.accepted && s'.delivered == s.delivered && s'.frees == s.frees
    ensures QueueOf(s') && History(s')
  {
  }

  lemma ConsumerWaits(s: State)
    requires Inv(s) && (s.consumer.Look? || s.consumer.Waiting? || s.consumer.Woken?)
    ensures Inv(ConsumerTurn(s))
  {
    SameQueue(s, ConsumerTurn(s));
  }

  lemma ConsumerLooks(s: State)
    requires Inv(s) && !InHand(s) && !s.consumer.Look? && !s.consumer.Waiting? && !s.consumer.Woken?
    ensures Inv(ConsumerTurn(s))
  {
    SameQueue(s, ConsumerTurn(s));
  }

  lemma ConsumerKeeps(s: State)
    requires Inv(s)
    ensures Inv(ConsumerTurn(s))
  {
    match s.consumer
    case Taking => ConsumerTakes(s);
    case Freeing(id) => ConsumerFrees(s);
    case Popping(id) => ConsumerPops(s);
    case Look | Waiting | Woken => ConsumerWaits(s);
    case _ => ConsumerLooks(s);
  }

  lemma ControllerDrains(s: State)
    requires Inv(s) && (s.controller.Draining? || s.controller.DrainPop?)
    ensures Inv(ControllerTurn(s, Destroy)) && ControllerTurn(s, Stop) == ControllerTurn(s, Destroy)
  {
    var s' := ControllerTurn(s, Destroy);
    if s.controller.DrainPop? {
      assert s.queue[0].id == Popped(s);
      Shifted(s, s');
    } else if s.queue != [] {
      assert s.queue[0] == Node(Popped(s), s.accepted[Popped(s)], true);
      Freed(s, s');
      OneMore(Popped(s));
    }
  }

  lemma ControllerKeeps(s: State, c: Command)
    requires Inv(s) && Orderly(s, Control(c))
    ensures Inv(ControllerTurn(s, c))
  {
    if s.controller.Draining? || s.controller.DrainPop? {
      ControllerDrains(s);
    } else {
      assert QueueOf(ControllerTurn(s, c));
    }
  }

  lemma TurnKeeps(s: State, t: Turn)
    requires Inv(s) && Orderly(s, t)
    ensures Inv(After(s, t))
  {
    match t
    case Push(r) => ProducerKeeps(s, r);
    case Run => ConsumerKeeps(s);
    case Control(c) => ControllerKeeps(s, c);
  }

  /** Every turn of a script is orderly. */
  predicate OrderlyRun(s: State, script: seq<Turn>) {
    script == [] || (OrderlyRun(s, script[..|script| - 1])
      && Orderly(Trace(s, script[..|script| - 1]), script[|script| - 1]))
  }

  lemma {:induction false} RunKeeps(s: State, script: seq<Turn>)
    requires Inv(s) && OrderlyRun(s, script)
    ensures Inv(Trace(s, script))
  {
    if script != [] {
      var rest := script[..|script| - 1];
      RunKeeps(s, rest);
      TurnKeeps(Trace(s, rest), script[|script| - 1]);
    }
  }

  /** Buffer id is deleted exactly once. */
  predicate FreedOnce(s: State, id: nat) {
    multiset(s.frees)[id] == 1
  }

  lemma {:induction false} UptoCounts(n: nat, id: nat)
    ensures multiset(Upto(n))[id] == if id < n then 1 else 0
  {
    if n > 0 {
      OneMore(n - 1);
      UptoCounts(n - 1, id);
    }
  }

  /** What is promised of the dispatcher: memory is not misused, the queue keeps its bound, deliveries are the first
      messages accepted in order, each buffer is deleted at most once and in the end exactly once, and a consumer that
      waits on a clear event has nothing to do or is about to be signalled. */
  ghost predicate Promised(s: State) {
    && !s.broken
    && |s.queue| <= DEFAULT_QUEUE_SIZE
    && s.delivered <= s.accepted
    && (forall id: nat {:trigger FreedOnce(s, id)} :: FreedOnce(s, id) || id !in s.frees)
    && (s.controller.Closed? ==> forall id: nat :: id < |s.accepted| ==> FreedOnce(s, id))
    && (s.consumer.Waiting? && !s.event ==>
         (s.queue == [] || s.producer.Pushed?) && (s.quit ==> s.controller.Raised? || s.controller.Closed?))
  }

  lemma InvPromises(s: State)
    requires Inv(s)
    ensures Promised(s)
  {
    forall id: nat {:trigger FreedOnce(s, id)}
      ensures FreedOnce(s, id) <==> id < Popped(s) + Dead(s)
      ensures FreedOnce(s, id) || id !in s.frees
    {
      UptoCounts(Popped(s) + Dead(s), id);
    }
  }

  /** It holds in every orderly run of the three threads, whatever the interleaving. */
  lemma EveryRun(script: seq<Turn>)
    requires OrderlyRun(START, script)
    ensures Promised(Trace(START, script))
  {
    StartIsFine();
    RunKeeps(START, script);
    InvPromises(Trace(START, script));
  }

  /** No memory is misused, and when the handle is closed every buffer has been freed once. */
  ghost predicate Fine(s: State) {
    !s.broken && (s.controller.Closed? ==> forall id: nat :: id < |s.accepted| ==> FreedOnce(s, id))
  }

  predicate QuietRun(script: seq<Turn>) {
    forall i :: 0 <= i < |script| ==> Quiet(script[i])
  }

  lemma {:induction false} StaysEmptying(s: State, script: seq<Turn>)
    requires Emptying(s)
    ensures Emptying(Trace(s, script))
  {
    if script != [] {
      StaysEmptying(s, script[..|script| - 1]);
    }
  }

  lemma {:induction false} QuietIsOrderly(s: State, script: seq<Turn>)
    requires Emptying(s) && QuietRun(script)
    ensures OrderlyRun(s, script)
  {
    if script != [] {
      QuietIsOrderly(s, script[..|script| - 1]);
      StaysEmptying(s, script[..|script| - 1]);
      assert Quiet(script[|script| - 1]);
    }
  }

  lemma InvIsFine(s: State)
    requires Inv(s)
    ensures Fine(s)
  {
    if s.controller.Closed? {
      forall id: nat | id < |s.accepted|
        ensures FreedOnce(s, id)
      {
        UptoCounts(|s.accepted|, id);
      }
    }
  }

  /** When the destructor begins in good order, every way to go on is fine. */
  lemma OrderlyIsFine(s: State, script: seq<Turn>)
    requires Inv(s) && Emptying(s) && QuietRun(script)
    ensures Fine(Trace(s, script))
  {
    QuietIsOrderly(s, script);
    RunKeeps(s, script);
    InvIsFine(Trace(s, script));
  }
}

/** The other half: when the destructor begins while something is under way, there is a way to go on that uses
    freed memory or loses a buffer. */
module DispatcherRaces {
  import opened Bytes
  import opened DispatcherSteps
  import opened DispatcherSafety

  lemma {:induction false} TraceJoin(s: State, a: seq<Turn>, b: seq<Turn>)
    ensures Trace(s, a + b) == Trace(Trace(s, a), b)
  {
    if b == [] {
      assert a + b == a;
    } else {
      var r := b[..|b| - 1];
      TraceJoin(s, a, r);
      assert (a + b)[..|a + b| - 1] == a + r;
    }
  }

  lemma OneTurn(s: State, t: Turn)
    ensures Trace(s, [t]) == After(s, t)
  {
    assert Trace(s, []) == s;
  }

  lemma TurnFirst(s: State, t: Turn, script: seq<Turn>)
    ensures Trace(s, [t] + script) == Trace(After(s, t), script)
  {
    TraceJoin(s, [t], script);
    OneTurn(s, t);
  }

  const DRAIN: Turn := Control(Destroy)
  const REFUSED: Request := Arguments(None, 0, 0, 0, 0, 0, None)

  /** Both threads delete the buffer of the message in the consumer's hand. */
  lemma TwiceFreed(s: State) returns (script: seq<Turn>)
    requires !s.broken && s.controller.Draining? && s.queue != [] && s.queue[0].live
    requires s.consumer == Freeing(s.queue[0].id)
    ensures QuietRun(script) && Trace(s, script).broken
  {
    script := [DRAIN] + [Run];
    TurnFirst(s, DRAIN, [Run]);
    OneTurn(After(s, DRAIN), Run);
  }

  lemma TakenAndFreed(s: State) returns (script: seq<Turn>)
    requires !s.broken && s.controller.Draining? && s.queue != [] && s.queue[0].live
    requires s.consumer.Taking?
    ensures QuietRun(script) && Trace(s, script).broken
  {
    script := TwiceFreed(After(s, Run));
    TurnFirst(s, Run, script);
    script := [Run] + script;
  }

  lemma SeenAndFreed(s: State) returns (script: seq<Turn>)
    requires !s.broken && s.controller.Draining? && s.queue != [] && s.queue[0].live
    requires s.consumer.LookAgain?
    ensures QuietRun(script) && Trace(s, script).broken
  {
    script := TakenAndFreed(After(s, Run));
    TurnFirst(s, Run, script);
    script := [Run] + script;
  }

  /** Both threads pop the message that the consumer has freed. */
  lemma TwicePopped(s: State) returns (script: seq<Turn>)
    requires !s.broken && s.controller.Draining? && s.queue != [] && !s.queue[0].live
    requires s.consumer == Popping(s.queue[0].id) && (|s.queue| > 1 ==> s.queue[1].id != s.queue[0].id)
    ensures QuietRun(script) && Trace(s, script).broken
  {
    script := [DRAIN] + ([DRAIN] + [Run]);
    var s1 := After(s, DRAIN);
    TurnFirst(s, DRAIN, [DRAIN] + [Run]);
    TurnFirst(s1, DRAIN, [Run]);
    OneTurn(After(s1, DRAIN), Run);
  }

  /** Buffer numbers are below the number of messages accepted. */
  predicate Numbered(s: State) {
    (forall id :: id in s.frees ==> id < |s.accepted|) && (forall n :: n in s.queue ==> n.id < |s.accepted|)
  }

  lemma {:induction false} DrainAll(s: State) returns (script: seq<Turn>)
    requires !s.broken && s.controller.Draining? && Numbered(s)
    ensures QuietRun(script)
    ensures
      var e := Trace(s, script);
      e.controller.Closed? && !e.broken && e.producer == s.producer && e.accepted == s.accepted && Numbered(e)
    decreases |s.queue|
  {
    var s1 := After(s, DRAIN);
    if s.queue == [] {
      script := [DRAIN];
      OneTurn(s, DRAIN);
    } else {
      var s2 := After(s1, DRAIN);
      assert s2.queue == s.queue[1..];
      script := DrainAll(s2);
      TurnFirst(s1, DRAIN, script);
      TurnFirst(s, DRAIN, [DRAIN] + script);
      script := [DRAIN] + ([DRAIN] + script);
    }
  }

  /** A message pushed after the queue was emptied is never freed. */
  lemma PushedTooLate(s: State) returns (script: seq<Turn>)
    requires !s.broken && s.controller.Draining? && Numbered(s) && s.producer.Room?
    ensures QuietRun(script) && !Fine(Trace(s, script))
  {
    var drain := DrainAll(s);
    var t := Push(REFUSED);
    script := drain + [t];
    TraceJoin(s, drain, [t]);
    OneTurn(Trace(s, drain), t);
    var e := Trace(s, script);
    var id := |s.accepted|;
    assert id < |e.accepted| && id !in e.frees;
    assert !FreedOnce(e, id);
  }

  lemma DisorderlyIsNot(s: State, t: Turn) returns (script: seq<Turn>)
    requires Inv(s) && !Emptying(s) && Emptying(After(s, t)) && !Settled(s)
    ensures QuietRun(script) && !Fine(Trace(After(s, t), script))
  {
    var e := After(s, t);
    if s.queue != [] {
      assert s.queue[0] == Node(Popped(s), s.accepted[Popped(s)], Dead(s) == 0);
      assert |s.queue| > 1 ==> s.queue[1] == Node(Popped(s) + 1, s.accepted[Popped(s) + 1], true);
    }
    if s.consumer.LookAgain? && s.queue != [] {
      script := SeenAndFreed(e);
    } else if s.consumer.Taking? {
      script := TakenAndFreed(e);
    } else if s.consumer.Freeing? {
      script := TwiceFreed(e);
    } else if s.consumer.Popping? {
      script := TwicePopped(e);
    } else {
      script := PushedTooLate(e);
    }
  }

  /** For the queue and its buffers the destructor is safe exactly when nothing is under way as it begins to empty the
      queue: stop() has slept long enough. The dispatcher's own fields are taken to be there as long as a thread
      looks at them. */
  lemma DestructionIsSafeIff(s: State, t: Turn)
    requires Inv(s) && !Emptying(s) && Emptying(After(s, t))
    ensures Settled(s) <==> forall script :: QuietRun(script) ==> Fine(Trace(After(s, t), script))
  {
    if Settled(s) {
      TurnKeeps(s, t);
      forall script | QuietRun(script)
        ensures Fine(Trace(After(s, t), script))
      {
        OrderlyIsFine(After(s, t), script);
      }
    } else {
      var script := DisorderlyIsNot(s, t);
    }
  }

  /** A run that goes wrong: the destructor empties the queue while the consumer is with a subscriber. */
  lemma SleepTooShort(r: Request) returns (script: seq<Turn>)
    requires Accepts(r)
    ensures Trace(START, script).broken
  {
    var pushed := After(After(After(START, Push(r)), Push(r)), Push(r));
    assert pushed.queue == [Node(0, PacketOf(r), true)];
    var seen := After(After(After(pushed, Run), Run), Run);
    var raised := After(seen, DRAIN);
    script := SeenAndFreed(After(raised, DRAIN));
    TurnFirst(raised, DRAIN, script);
    script := [DRAIN] + script;
    TurnFirst(seen, DRAIN, script);
    script := [DRAIN] + script;
    ThreeFirst(pushed, Run, script);
    script := [Run] + ([Run] + ([Run] + script));
    ThreeFirst(START, Push(r), script);
    script := [Push(r)] + ([Push(r)] + ([Push(r)] + script));
  }

  lemma ThreeFirst(s: State, t: Turn, script: seq<Turn>)
    ensures Trace(s, [t] + ([t] + ([t] + script))) == Trace(After(After(After(s, t), t), t), script)
  {
    TurnFirst(After(After(s, t), t), t, script);
    TurnFirst(After(s, t), t, [t] + script);
    TurnFirst(s, t, [t] + ([t] + script));
  }
}

/** What the subscribers are called with, told from the calls of pushMessage. */
module DispatcherRequests {
  import opened DispatcherSteps
  import opened DispatcherSafety

  /** A call of pushMessage puts something in the queue: nothing is missing, there are 1 to 65536 bytes, and fewer than
      100 messages are waiting. */
  predicate Admits(s: State, t: Turn) {
    && !s.broken && s.producer.Idle? && t.Push? && |s.queue| < 100
    && t.request.subscriber.Some? && t.request.data.Some? && 1 <= t.request.datalen <= 65536
  }

  /** The calls of a script that do so, in their order */
  function Admitted(s: State, script: seq<Turn>): seq<Request> {
    if script == [] then []
    else
      var before, t := script[..|script| - 1], script[|script| - 1];
      Admitted(s, before) + if Admits(Trace(s, before), t) then [t.request] else []
  }

  /** A packet holds what a call was given, each argument in its place. */
  predicate Holds(p: Packet, r: Request) {
    && r.data.Some? && |p.data| == r.datalen && p.data <= r.data.value
    && p.group == r.group && p.gport == r.gport && p.source == r.source && p.sport == r.sport
    && r.subscriber.Some? && p.subscriber == r.subscriber.value
  }

  /** What has been accepted, and is about to be put in the queue */
  function Pending(s: State): seq<Packet> {
    s.accepted + if s.producer.Room? then [s.producer.packet] else []
  }

  ghost predicate AllHold(ps: seq<Packet>, rs: seq<Request>) {
    |ps| == |rs| && forall i :: 0 <= i < |ps| ==> Holds(ps[i], rs[i])
  }

  lemma PendingNext(s: State, t: Turn)
    ensures Admits(s, t) ==> Pending(After(s, t)) == Pending(s) + [PacketOf(t.request)] && Holds(PacketOf(t.request), t.request)
    ensures !Admits(s, t) ==> Pending(After(s, t)) == Pending(s)
  {
  }

  /** The packets are those of the calls that put something in the queue, in the order of the calls. */
  lemma {:induction false} AcceptedHold(script: seq<Turn>)
    ensures AllHold(Pending(Trace(START, script)), Admitted(START, script))
  {
    if script != [] {
      var before, t := script[..|script| - 1], script[|script| - 1];
      AcceptedHold(before);
      PendingNext(Trace(START, before), t);
    }
  }

  /** The calls of the subscribers are those of the first of these calls, in every orderly run. */
  lemma DeliveredHold(script: seq<Turn>)
    requires OrderlyRun(START, script)
    ensures
      var s := Trace(START, script);
      |s.delivered| <= |Admitted(START, script)| && AllHold(s.delivered, Admitted(START, script)[..|s.delivered|])
  {
    AcceptedHold(script);
    EveryRun(script);
  }
}

/** The dispatcher with the fields of the source; a method is one turn of one of its three threads. */
module Dispatchers {
  import opened Bytes
  import opened DispatcherSteps
  import opened DispatcherSafety
  import opened DispatcherRequests

  class Dispatcher {
    var queue: seq<Node>
    var event: bool
    var quit: bool
    var producer: Producer
    var consumer: Consumer
    var controller: Controller
    var accepted: seq<Packet>
    var delivered: seq<Packet>
    var frees: seq<nat>

    ghost function View(): State
      reads this
    {
      State(queue, event, quit, producer, consumer, controller, accepted, delivered, frees, false)
    }

    ghost predicate Valid()
      reads this
    {
      Inv(View())
    }

    constructor ()
      ensures Valid() && View() == START
    {
      queue, event, quit := [], false, false;
      producer, consumer, controller := Idle, Loop, Ready;
      accepted, delivered, frees := [], [], [];
      new;
      StartIsFine();
    }

    /** pushMessage: what is accepted is in the queue, within its bound. */
    method PushMessage(r: Request)
      requires Valid() && Orderly(View(), Push(r))
      modifies `queue, `accepted, `producer, `event
      ensures Valid() && View() == After(old(View()), Push(r))
      ensures accepted == old(accepted) + if old(producer).Room? then [old(producer).packet] else []
      ensures |queue| - old(|queue|) == |accepted| - old(|accepted|) && |queue| <= DEFAULT_QUEUE_SIZE
    {
      ProducerKeeps(View(), r);
      match producer
      case Idle =>
        if !Accepts(r) || |queue| >= DEFAULT_QUEUE_SIZE {
          return;
        }
        producer := Room(PacketOf(r));
      case Room(p) =>
        queue := queue + [Node(|accepted|, p, true)];
        accepted := accepted + [p];
        producer := Pushed;
      case Pushed =>
        event := true;
        producer := Idle;
    }

    /** The wait of run, and the tests around it: a consumer that would wait in vain has nothing to do. */
    method RunWait()
      requires Valid() && (consumer.Loop? || consumer.Look? || consumer.Waiting? || consumer.Woken? || consumer.Checking?)
      modifies `event, `quit, `consumer
      ensures Valid() && View() == After(old(View()), Run)
      ensures consumer.Waiting? && !event ==> queue == [] || producer.Pushed?
    {
      ConsumerKeeps(View());
      match consumer
      case Loop => consumer := if quit then Returned else Look;
      case Look => consumer := if queue == [] then Waiting else Again;
      case Waiting =>
        if controller.Closed? {
          quit := true;
          consumer := Checking;
        } else if event {
          event := false;
          consumer := Woken;
        }
      case Woken =>
        event := false;
        consumer := Checking;
      case Checking => consumer := if quit then Returned else Again;
    }

    /** The inner loop of run: the front is taken, delivered, its buffer deleted and popped. It is there all the time,
        and with its buffer until that is deleted. */
    method RunDeliver()
      requires Valid() && (consumer.Again? || consumer.LookAgain? || consumer.Taking? || consumer.Freeing? || consumer.Popping?)
      modifies `queue, `consumer, `delivered, `frees
      ensures Valid() && View() == After(old(View()), Run)
      ensures delivered <= accepted && old(delivered) <= delivered && old(frees) <= frees
    {
      ConsumerKeeps(View());
      match consumer
      case Again => consumer := if quit then Loop else LookAgain;
      case LookAgain => consumer := if queue == [] then Loop else Taking;
      case Taking =>
        assert queue != [] && queue[0].live;
        delivered := delivered + [queue[0].packet];
        consumer := Freeing(queue[0].id);
      case Freeing(id) =>
        assert queue != [] && queue[0].id == id && queue[0].live;
        frees := frees + [id];
        queue := queue[0 := queue[0].(live := false)];
        consumer := Popping(id);
      case Popping(id) =>
        assert queue != [] && queue[0].id == id;
        queue := queue[1..];
        consumer := Again;
    }

    /** stop, and the destructor emptying the queue */
    method StopOrDestroy(c: Command)
      requires Valid() && Orderly(View(), Control(c))
      modifies `queue, `event, `quit, `controller, `frees
      ensures Valid() && View() == After(old(View()), Control(c))
      ensures controller.Closed? ==> queue == [] && forall id: nat :: id < |accepted| ==> FreedOnce(View(), id)
    {
      ControllerKeeps(View(), c);
      InvPromises(After(View(), Control(c)));
      match controller
      case Ready =>
        if c == Destroy && quit {
          controller := Draining;
        } else {
          quit := true;
          controller := Raised(c == Destroy);
        }
      case Raised(destroying) =>
        event := true;
        controller := if destroying then Draining else Ready;
      case Draining =>
        if queue == [] {
          controller := Closed;
        } else {
          var front := queue[0];
          if front.live {
            frees := frees + [front.id];
            queue := queue[0 := front.(live := false)];
          }
          controller := DrainPop(front.id);
        }
      case DrainPop(id) =>
        assert queue != [] && queue[0].id == id;
        queue := queue[1..];
        controller := Draining;
      case Closed =>
    }

    method Take(t: Turn)
      requires Valid() && Orderly(View(), t)
      modifies this
      ensures Valid() && View() == After(old(View()), t)
    {
      match t
      case Push(r) => PushMessage(r);
      case Run =>
        if consumer.Loop? || consumer.Look? || consumer.Waiting? || consumer.Woken? || consumer.Checking? {
          RunWait();
        } else if !consumer.Returned? {
          RunDeliver();
        }
      case Control(c) => StopOrDestroy(c);
    }

    /** Any interleaving of the three threads in which the destructor begins in good order, with all that is promised */
    method Execute(script: seq<Turn>)
      requires Valid() && OrderlyRun(View(), script)
      modifies this
      ensures Valid() && View() == Trace(old(View()), script) && Promised(View())
      ensures |queue| <= DEFAULT_QUEUE_SIZE && delivered <= accepted
      ensures controller.Closed? ==> forall id: nat :: id < |accepted| ==> FreedOnce(View(), id)
      ensures old(View()) == START ==>
                |delivered| <= |Admitted(START, script)| && AllHold(delivered, Admitted(START, script)[..|delivered|])
    {
      var i := 0;
      ghost var start := View();
      assert script[..|script|] == script;
      while i < |script|
        invariant i <= |script| && Valid() && View() == Trace(start, script[..i])
      {
        PrefixIsOrderly(start, script, i + 1);
        assert script[..i + 1][..i] == script[..i];
        Take(script[i]);
        i := i + 1;
      }
      InvPromises(View());
      if start == START {
        DeliveredHold(script);
      }
    }

    static lemma PrefixIsOrderly(s: State, script: seq<Turn>, n: nat)
      requires OrderlyRun(s, script) && n <= |script|
      ensures OrderlyRun(s, script[..n])
      decreases |script|
    {
      if n < |script| {
        PrefixIsOrderly(s, script[..|script| - 1], n);
        assert script[..|script| - 1][..n] == script[..n];
      } else {
        assert script[..n] == script;
      }
    }
  }
}
