/** The frame pipeline: producers store frames into their pipes and post a semaphore, one scheduler waits for it
    and scans all pipes, and two inference threads drain task queues. Critical sections are single steps here. */
module FramePipeline {

  type Frame = nat
  datatype Task = Task(pipe: nat, frame: Frame)

  datatype ProducerPC = Ready | Stored
  /** Waiting for work; about to look at pipe i, with or without having taken a frame in this round; holding the
      frame taken from pipe i; having queued it. */
  datatype SchedulerPC = SemWait | Scan(i: nat, taken: bool) | Holding(i: nat, frame: Frame) | Posting(i: nat)
  datatype InferPC = InferWait | Drain

  /** blocking tells the two builds apart: without workload balancing the scheduler loads from each pipe in turn,
      waiting until there is a frame, and runs inference itself. pipeOf names the pipe of each producer. The
      histories are produced (per pipe), done (per inference thread) and direct (frames inferred by the scheduler). */
  datatype State = State(blocking: bool, pipes: seq<seq<Frame>>, sem: nat,
                         pipeOf: seq<nat>, producers: seq<ProducerPC>, scheduler: SchedulerPC,
                         queues: seq<seq<Task>>, inferSem: seq<nat>, infer: seq<InferPC>,
                         produced: seq<seq<Frame>>, done: seq<seq<Task>>, direct: seq<Task>)

  datatype Event =
    | Store(t: nat, frame: Frame)
    | Post(t: nat)
    | SchedulerStep
    | InferStep(k: nat)

  predicate Shape(s: State) {
    && |s.producers| == |s.pipeOf| && |s.produced| == |s.pipes|
    && |s.queues| == 2 && |s.inferSem| == 2 && |s.infer| == 2 && |s.done| == 2
    && (forall t :: 0 <= t < |s.pipeOf| ==> s.pipeOf[t] < |s.pipes|)
    && (s.scheduler.Scan? ==> s.scheduler.i <= |s.pipes|)
    && (s.scheduler.Holding? || s.scheduler.Posting? ==> s.scheduler.i < |s.pipes|)
    && (s.blocking ==> !s.scheduler.Posting?)
  }

  /** Channel 0 goes to inference thread 1, every other channel to thread 0. */
  function QueueOf(pipe: nat): nat {
    if pipe == 0 then 1 else 0
  }

  /** Whether the scheduler can take its next step: it waits on the semaphore, and in the blocking build also on
      the pipe it is looking at. */
  predicate SchedulerReady(s: State)
    requires Shape(s)
  {
    match s.scheduler
    case SemWait => s.sem > 0
    case Scan(i, taken) => i == |s.pipes| || s.pipes[i] != [] || !s.blocking
    case _ => true
  }

  predicate Enabled(s: State, e: Event) {
    Shape(s) &&
    match e
    case Store(t, frame) => t < |s.producers| && s.producers[t].Ready?
    case Post(t) => t < |s.producers| && s.producers[t].Stored?
    case SchedulerStep => SchedulerReady(s)
    case InferStep(k) => k < 2 && (s.infer[k].InferWait? ==> s.inferSem[k] > 0)
  }

  function SchedulerNext(s: State): State
    requires Shape(s) && SchedulerReady(s)
  {
    match s.scheduler
    case SemWait => s.(sem := s.sem - 1, scheduler := Scan(0, false))
    case Scan(i, taken) =>
      if i == |s.pipes| then s.(scheduler := SemWait)
      else if s.pipes[i] == [] then s.(scheduler := Scan(i + 1, taken))
      else s.(pipes := s.pipes[i := s.pipes[i][1..]], scheduler := Holding(i, s.pipes[i][0]))
    case Holding(i, frame) =>
      if s.blocking then s.(direct := s.direct + [Task(i, frame)], scheduler := Scan(i + 1, true))
      else s.(queues := s.queues[QueueOf(i) := s.queues[QueueOf(i)] + [Task(i, frame)]], scheduler := Posting(i))
    case Posting(i) =>
      s.(inferSem := s.inferSem[QueueOf(i) := s.inferSem[QueueOf(i)] + 1], scheduler := Scan(i + 1, true))
  }

  function InferNext(s: State, k: nat): State
    requires Shape(s) && k < 2 && (s.infer[k].InferWait? ==> s.inferSem[k] > 0)
  {
    if s.infer[k].InferWait? then s.(inferSem := s.inferSem[k := s.inferSem[k] - 1], infer := s.infer[k := Drain])
    else if s.queues[k] == [] then s.(infer := s.infer[k := InferWait])
    else s.(queues := s.queues[k := s.queues[k][1..]], done := s.done[k := s.done[k] + [s.queues[k][0]]])
  }

  function Next(s: State, e: Event): (n: State)
    requires Enabled(s, e)
    ensures Shape(n) && n.blocking == s.blocking && |n.pipes| == |s.pipes|
  {
    match e
    case Store(t, frame) =>
      var p := s.pipeOf[t];
      s.(pipes := s.pipes[p := s.pipes[p] + [frame]], produced := s.produced[p := s.produced[p] + [frame]],
         producers := s.producers[t := Stored])
    case Post(t) => s.(sem := s.sem + 1, producers := s.producers[t := Ready])
    case SchedulerStep => SchedulerNext(s)
    case InferStep(k) => InferNext(s, k)
  }

  /** The state after all semaphores are initialized and before any thread has moved. */
  predicate Init(s: State) {
    && Shape(s) && s.sem == 0 && s.scheduler.SemWait? && s.direct == []
    && (forall p :: 0 <= p < |s.pipes| ==> s.pipes[p] == [] && s.produced[p] == [])
    && (forall t :: 0 <= t < |s.producers| ==> s.producers[t].Ready?)
    && (forall k :: 0 <= k < 2 ==> s.queues[k] == [] && s.inferSem[k] == 0 && s.infer[k].InferWait? && s.done[k] == [])
  }

  /** One state is the initial one: nothing anywhere, and two inference threads. */
  lemma StartIs(blocking: bool, pipeOf: seq<nat>, pipes: nat, s: State)
    requires (forall t :: 0 <= t < |pipeOf| ==> pipeOf[t] < pipes)
    ensures Init(s) && s.blocking == blocking && s.pipeOf == pipeOf && |s.pipes| == pipes
            <==> s == State(blocking, seq(pipes, _ => []), 0, pipeOf, seq(|pipeOf|, _ => Ready), SemWait,
                            [[], []], [0, 0], [InferWait, InferWait], seq(pipes, _ => []), [[], []], [])
  {
  }

  ghost predicate Runs(s: State, es: seq<Event>, n: State)
    decreases |es|
  {
    if es == [] then n == s else Enabled(s, es[0]) && Runs(Next(s, es[0]), es[1..], n)
  }

  // ---- counting ----

  function Frames(pipes: seq<seq<Frame>>): nat {
    if pipes == [] then 0 else Frames(pipes[..|pipes| - 1]) + |pipes[|pipes| - 1]|
  }

  function Unposted(ps: seq<ProducerPC>): nat {
    if ps == [] then 0 else Unposted(ps[..|ps| - 1]) + if ps[|ps| - 1].Stored? then 1 else 0
  }

  lemma {:induction false} FramesUpdate(pipes: seq<seq<Frame>>, p: nat, q: seq<Frame>)
    requires p < |pipes|
    ensures Frames(pipes[p := q]) + |pipes[p]| == Frames(pipes) + |q|
  {
    var m := |pipes| - 1;
    if p == m {
      assert pipes[p := q][..m] == pipes[..m];
    } else {
      assert pipes[p := q][..m] == pipes[..m][p := q];
      FramesUpdate(pipes[..m], p, q);
    }
  }

  lemma {:induction false} UnpostedUpdate(ps: seq<ProducerPC>, t: nat, pc: ProducerPC)
    requires t < |ps|
    ensures Unposted(ps[t := pc]) + (if ps[t].Stored? then 1 else 0) == Unposted(ps) + (if pc.Stored? then 1 else 0)
  {
    var m := |ps| - 1;
    if t == m {
      assert ps[t := pc][..m] == ps[..m];
    } else {
      assert ps[t := pc][..m] == ps[..m][t := pc];
      UnpostedUpdate(ps[..m], t, pc);
    }
  }

  lemma {:induction false} FramesZero(pipes: seq<seq<Frame>>)
    ensures Frames(pipes) == 0 <==> forall p :: 0 <= p < |pipes| ==> pipes[p] == []
  {
    if pipes != [] {
      var m := |pipes| - 1;
      FramesZero(pipes[..m]);
      assert forall p :: 0 <= p < m ==> pipes[..m][p] == pipes[p];
    }
  }

  lemma {:induction false} UnpostedZero(ps: seq<ProducerPC>)
    ensures Unposted(ps) == 0 <==> forall t :: 0 <= t < |ps| ==> ps[t].Ready?
  {
    if ps != [] {
      var m := |ps| - 1;
      UnpostedZero(ps[..m]);
      assert forall t :: 0 <= t < m ==> ps[..m][t] == ps[t];
    }
  }

  // ---- no frame is stranded ----

  function Credit(s: State): nat {
    s.sem + Unposted(s.producers)
  }

  /** Every frame in a pipe is backed by a post, made or still to come, or by the round in progress while it has
      taken nothing; and a round that has taken nothing so far leaves behind it no more frames than are backed. */
  ghost predicate Backed(s: State)
    requires Shape(s)
  {
    match s.scheduler
    case Scan(i, false) => Frames(s.pipes) <= Credit(s) + 1 && Frames(s.pipes[..i]) <= Credit(s)
    case _ => Frames(s.pipes) <= Credit(s)
  }

  lemma BackedStore(s: State, t: nat, frame: Frame)
    requires Enabled(s, Store(t, frame)) && Backed(s)
    ensures Backed(Next(s, Store(t, frame)))
  {
    var p := s.pipeOf[t];
    FramesUpdate(s.pipes, p, s.pipes[p] + [frame]);
    UnpostedUpdate(s.producers, t, Stored);
    var n := Next(s, Store(t, frame));
    if s.scheduler.Scan? {
      var i := s.scheduler.i;
      if p < i {
        FramesUpdate(s.pipes[..i], p, s.pipes[p] + [frame]);
        assert n.pipes[..i] == s.pipes[..i][p := s.pipes[p] + [frame]];
      } else {
        assert n.pipes[..i] == s.pipes[..i];
      }
    }
  }

  lemma BackedScheduler(s: State)
    requires Enabled(s, SchedulerStep) && Backed(s)
    ensures Backed(Next(s, SchedulerStep))
  {
    if s.scheduler.Scan? {
      var i := s.scheduler.i;
      if i == |s.pipes| {
        assert s.pipes[..i] == s.pipes;
      } else if s.pipes[i] == [] {
        assert s.pipes[..i + 1][..i] == s.pipes[..i];
      } else {
        FramesUpdate(s.pipes, i, s.pipes[i][1..]);
      }
    }
  }

  lemma BackedKept(s: State, e: Event)
    requires Enabled(s, e) && Backed(s)
    ensures Backed(Next(s, e))
  {
    match e
    case Store(t, frame) => BackedStore(s, t, frame);
    case Post(t) => UnpostedUpdate(s.producers, t, Ready);
    case SchedulerStep => BackedScheduler(s);
    case InferStep(k) =>
  }

  /** The same for the task queues: a thread that is not draining leaves no task behind that has not been posted. */
  ghost predicate QueuesBacked(s: State)
    requires Shape(s)
  {
    forall k :: 0 <= k < 2 && s.infer[k].InferWait? ==>
                  |s.queues[k]| <= s.inferSem[k] + if s.scheduler.Posting? && QueueOf(s.scheduler.i) == k then 1 else 0
  }

  lemma QueuesKept(s: State, e: Event)
    requires Enabled(s, e) && QueuesBacked(s)
    ensures QueuesBacked(Next(s, e))
  {
  }

  // ---- order ----

  /** The frames of pipe p among tasks, in order. */
  function Of(p: nat, tasks: seq<Task>): seq<Frame> {
    if tasks == [] then []
    else Of(p, tasks[..|tasks| - 1]) + if tasks[|tasks| - 1].pipe == p then [tasks[|tasks| - 1].frame] else []
  }

  lemma {:induction false} OfConcat(p: nat, a: seq<Task>, b: seq<Task>)
    ensures Of(p, a + b) == Of(p, a) + Of(p, b)
  {
    if b == [] {
      assert a + b == a;
    } else {
      assert (a + b)[..|a + b| - 1] == a + b[..|b| - 1];
      OfConcat(p, a, b[..|b| - 1]);
    }
  }

  function InHand(s: State, p: nat): seq<Frame> {
    if s.scheduler.Holding? && s.scheduler.i == p then [s.scheduler.frame] else []
  }

  /** What the inference side has received from pipe p, in order. */
  function Received(s: State, p: nat): seq<Frame>
    requires Shape(s)
  {
    if s.blocking then Of(p, s.direct) else Of(p, s.done[QueueOf(p)] + s.queues[QueueOf(p)])
  }

  /** The frames of each pipe are never lost, repeated or reordered on their way. */
  ghost predicate InOrder(s: State)
    requires Shape(s)
  {
    forall p :: 0 <= p < |s.pipes| ==> s.produced[p] == Received(s, p) + InHand(s, p) + s.pipes[p]
  }

  lemma OrderStore(s: State, t: nat, frame: Frame)
    requires Enabled(s, Store(t, frame)) && InOrder(s)
    ensures InOrder(Next(s, Store(t, frame)))
  {
    var q, n := s.pipeOf[t], Next(s, Store(t, frame));
    forall p | 0 <= p < |s.pipes|
      ensures n.produced[p] == Received(n, p) + InHand(n, p) + n.pipes[p]
    {
      if p == q {
        assert n.produced[p] == (Received(s, p) + InHand(s, p) + s.pipes[p]) + [frame];
      }
    }
  }

  lemma OrderTake(s: State, i: nat)
    requires Shape(s) && InOrder(s) && s.scheduler.Scan? && s.scheduler.i == i < |s.pipes| && s.pipes[i] != []
    ensures InOrder(SchedulerNext(s))
  {
    var n := SchedulerNext(s);
    forall p | 0 <= p < |s.pipes|
      ensures n.produced[p] == Received(n, p) + InHand(n, p) + n.pipes[p]
    {
      if p == i {
        assert s.pipes[i] == [s.pipes[i][0]] + s.pipes[i][1..];
      }
    }
  }

  lemma OrderHandOn(s: State, i: nat)
    requires Shape(s) && InOrder(s) && s.scheduler.Holding? && s.scheduler.i == i
    ensures InOrder(SchedulerNext(s))
  {
    var n := SchedulerNext(s);
    assert n.pipes == s.pipes && n.produced == s.produced;
    hide SchedulerNext, Received, InHand;
    forall p | 0 <= p < |s.pipes|
      ensures n.produced[p] == Received(n, p) + InHand(n, p) + n.pipes[p]
    {
      HandedOn(s, i, p);
    }
  }

  lemma HandedOn(s: State, i: nat, p: nat)
    requires Shape(s) && s.scheduler.Holding? && s.scheduler.i == i && p < |s.pipes|
    ensures var n := SchedulerNext(s);
            Shape(n) && Received(n, p) == Received(s, p) + InHand(s, p) && InHand(n, p) == []
  {
    var n, task, k := SchedulerNext(s), Task(i, s.scheduler.frame), QueueOf(i);
    assert Of(p, [task]) == InHand(s, p) by {
      assert Of(p, []) == [];
    }
    if s.blocking {
      OfConcat(p, s.direct, [task]);
    } else if QueueOf(p) == k {
      assert n.done[k] + n.queues[k] == (s.done[k] + s.queues[k]) + [task];
      OfConcat(p, s.done[k] + s.queues[k], [task]);
    }
  }

  lemma OrderInfer(s: State, k: nat)
    requires Enabled(s, InferStep(k)) && InOrder(s)
    ensures InOrder(Next(s, InferStep(k)))
  {
    var n := Next(s, InferStep(k));
    forall p | 0 <= p < |s.pipes|
      ensures Received(n, p) == Received(s, p)
    {
      if s.queues[k] != [] && !s.infer[k].InferWait? {
        assert s.queues[k] == [s.queues[k][0]] + s.queues[k][1..];
        assert n.done[k] + n.queues[k] == s.done[k] + s.queues[k];
      }
    }
    assert forall p :: 0 <= p < |s.pipes| ==> InHand(n, p) == InHand(s, p);
  }

  lemma OrderKept(s: State, e: Event)
    requires Enabled(s, e) && InOrder(s)
    ensures InOrder(Next(s, e))
  {
    match e
    case Store(t, frame) => OrderStore(s, t, frame);
    case Post(t) =>
    case InferStep(k) => OrderInfer(s, k);
    case SchedulerStep =>
      if s.scheduler.Holding? {
        OrderHandOn(s, s.scheduler.i);
      } else if s.scheduler.Scan? && s.scheduler.i < |s.pipes| && s.pipes[s.scheduler.i] != [] {
        OrderTake(s, s.scheduler.i);
      }
  }

  // ---- what a run leaves ----

  /** The frames of channel 0 and only those are handed to inference thread 1. */
  ghost predicate Routed(s: State)
    requires Shape(s)
  {
    forall k, t :: 0 <= k < 2 && t in s.done[k] + s.queues[k] ==> (t.pipe == 0 <==> k == 1)
  }

  lemma {:induction false} RunRoutes(s: State, es: seq<Event>, n: State)
    requires Shape(s) && Routed(s) && Runs(s, es, n)
    ensures Shape(n) && Routed(n)
    decreases |es|
  {
    if es != [] {
      var m := Next(s, es[0]);
      forall k, t | 0 <= k < 2 && t in m.done[k] + m.queues[k] ensures t.pipe == 0 <==> k == 1 {
        assert t in s.done[k] + s.queues[k]
               || (s.scheduler.Holding? && t.pipe == s.scheduler.i && QueueOf(t.pipe) == k);
      }
      RunRoutes(m, es[1..], n);
    }
  }

  /** How many steps of a run are of one kind. */
  ghost function Count(kind: (State, Event) -> bool, s: State, es: seq<Event>): nat
    decreases |es|
  {
    if es == [] || !Enabled(s, es[0]) then 0
    else (if kind(s, es[0]) then 1 else 0) + Count(kind, Next(s, es[0]), es[1..])
  }

  function Stores(): (State, Event) -> bool { (s: State, e: Event) => e.Store? }
  function Posts(): (State, Event) -> bool { (s: State, e: Event) => e.Post? }

  /** The scheduler starts a round. */
  function Rounds(): (State, Event) -> bool {
    (s: State, e: Event) => e.SchedulerStep? && s.scheduler.SemWait?
  }

  /** The scheduler posts to inference thread k. */
  function Orders(k: nat): (State, Event) -> bool {
    (s: State, e: Event) => e.SchedulerStep? && s.scheduler.Posting? && (s.scheduler.i == 0 <==> k == 1)
  }

  /** Inference thread k wakes up. */
  function Wakes(k: nat): (State, Event) -> bool {
    (s: State, e: Event) => e == InferStep(k) && k < |s.infer| && s.infer[k].InferWait?
  }

  lemma OneStep(s: State, e: Event, k: nat)
    requires Enabled(s, e) && k < 2
    ensures var n := Next(s, e);
            && n.sem + (if Rounds()(s, e) then 1 else 0) == s.sem + (if Posts()(s, e) then 1 else 0)
            && n.inferSem[k] + (if Wakes(k)(s, e) then 1 else 0)
               == s.inferSem[k] + (if Orders(k)(s, e) then 1 else 0)
            && Unposted(n.producers) + (if Posts()(s, e) then 1 else 0)
               == Unposted(s.producers) + (if Stores()(s, e) then 1 else 0)
  {
    match e
    case Store(t, frame) => UnpostedUpdate(s.producers, t, Stored);
    case Post(t) => UnpostedUpdate(s.producers, t, Ready);
    case SchedulerStep =>
    case InferStep(j) =>
  }

  lemma {:induction false} RunCounts(s: State, es: seq<Event>, n: State, k: nat)
    requires Shape(s) && Runs(s, es, n) && k < 2
    ensures Shape(n)
    ensures n.sem + Count(Rounds(), s, es) == s.sem + Count(Posts(), s, es)
    ensures n.inferSem[k] + Count(Wakes(k), s, es) == s.inferSem[k] + Count(Orders(k), s, es)
    ensures Unposted(n.producers) + Count(Posts(), s, es) == Unposted(s.producers) + Count(Stores(), s, es)
    decreases |es|
  {
    hide Enabled, Rounds, Posts, Wakes, Orders, Stores, Unposted;
    if es != [] {
      OneStep(s, es[0], k);
      RunCounts(Next(s, es[0]), es[1..], n, k);
    }
  }

  /** In every run each round of the scheduler is paid for by one post, each post by one stored frame, and each
      wake-up of an inference thread by one order of the scheduler; thread 1 serves channel 0 and nothing else. */
  lemma PermitsConserved(s: State, es: seq<Event>, n: State, k: nat)
    requires Init(s) && Runs(s, es, n) && k < 2
    ensures Shape(n)
    ensures Count(Posts(), s, es) == Count(Rounds(), s, es) + n.sem
    ensures Count(Stores(), s, es) == Count(Posts(), s, es) + Unposted(n.producers)
    ensures Count(Orders(k), s, es) == Count(Wakes(k), s, es) + n.inferSem[k]
    ensures forall t :: t in n.done[k] + n.queues[k] ==> (t.pipe == 0 <==> k == 1)
  {
    UnpostedZero(s.producers);
    RunCounts(s, es, n, k);
    RunRoutes(s, es, n);
  }

  // ---- all runs ----

  ghost predicate Inv(s: State) {
    Shape(s) && Backed(s) && QueuesBacked(s) && InOrder(s)
  }

  lemma InitInv(s: State)
    requires Init(s)
    ensures Inv(s)
  {
    FramesZero(s.pipes);
  }

  lemma {:induction false} RunKeeps(s: State, es: seq<Event>, n: State)
    requires Inv(s) && Runs(s, es, n)
    ensures Inv(n) && n.blocking == s.blocking && |n.pipes| == |s.pipes|
    decreases |es|
  {
    hide Backed, QueuesBacked, InOrder, Enabled;
    if es != [] {
      BackedKept(s, es[0]);
      QueuesKept(s, es[0]);
      OrderKept(s, es[0]);
      RunKeeps(Next(s, es[0]), es[1..], n);
    }
  }

  /** No thread has a step left that does not wait for another: every producer has posted what it stored. */
  ghost predicate ProducersPosted(s: State) {
    forall t :: 0 <= t < |s.producers| ==> s.producers[t].Ready?
  }

  ghost predicate PipesEmpty(s: State) {
    forall p :: 0 <= p < |s.pipes| ==> s.pipes[p] == []
  }

  /** In every run of either build, a scheduler blocked on the semaphore leaves no frame in any pipe, once every
      producer that has stored a frame has also posted. */
  lemma NothingStranded(s: State, es: seq<Event>, n: State)
    requires Init(s) && Runs(s, es, n)
    requires n.scheduler.SemWait? && n.sem == 0 && ProducersPosted(n)
    ensures PipesEmpty(n)
  {
    InitInv(s);
    RunKeeps(s, es, n);
    UnpostedZero(n.producers);
    FramesZero(n.pipes);
  }

  /** In every run, the frames of a pipe reach inference in the order in which they were stored, none lost and
      none repeated: what has not arrived is in the scheduler's hand or still in the pipe. */
  lemma EndToEndOrder(s: State, es: seq<Event>, n: State, p: nat)
    requires Init(s) && Runs(s, es, n) && p < |n.pipes|
    ensures Shape(n) && n.produced[p] == Received(n, p) + InHand(n, p) + n.pipes[p]
  {
    InitInv(s);
    RunKeeps(s, es, n);
  }

  /** When everything waits, everything that was produced has been inferred: no frame is left anywhere. The build
      with workload balancing; the inference threads wait on their semaphores. */
  lemma QuiescentMeansDone(s: State, es: seq<Event>, n: State, p: nat)
    requires Init(s) && Runs(s, es, n) && !s.blocking && p < |n.pipes|
    requires n.scheduler.SemWait? && n.sem == 0 && ProducersPosted(n)
    requires Shape(n) && forall k :: 0 <= k < 2 ==> n.infer[k].InferWait? && n.inferSem[k] == 0
    ensures n.produced[p] == Of(p, n.done[QueueOf(p)])
  {
    InitInv(s);
    RunKeeps(s, es, n);
    NothingStranded(s, es, n);
    QueueEmpty(n, QueueOf(p));
    QuietPipe(n, p);
  }

  lemma QueueEmpty(n: State, k: nat)
    requires Inv(n) && k < 2 && n.infer[k].InferWait? && n.inferSem[k] == 0 && n.scheduler.SemWait?
    ensures n.queues[k] == []
  {
  }

  lemma QuietPipe(n: State, p: nat)
    requires Inv(n) && !n.blocking && n.scheduler.SemWait? && p < |n.pipes| && PipesEmpty(n)
    requires n.queues[QueueOf(p)] == []
    ensures n.produced[p] == Of(p, n.done[QueueOf(p)])
  {
    hide Of, Backed, QueuesBacked;
    assert n.done[QueueOf(p)] + [] == n.done[QueueOf(p)];
    assert Received(n, p) + InHand(n, p) + n.pipes[p] == Received(n, p);
  }

  // ---- the blocking build can strand frames inside a round ----

  /** The scheduler waits on a pipe although another pipe has a frame and nobody has anything left to post. */
  ghost predicate Stuck(s: State) {
    && Shape(s) && s.blocking && ProducersPosted(s) && !SchedulerReady(s) && !s.scheduler.SemWait? && !PipesEmpty(s)
  }

  /** A frame for a later pipe: the scheduler starts a round and waits on the first pipe. */
  lemma StrandLater(s: State, t: nat) returns (es: seq<Event>, n: State)
    requires Init(s) && s.blocking && t < |s.producers| && s.pipeOf[t] > 0
    ensures Runs(s, es, n) && Stuck(n)
  {
    var a := Next(s, Store(t, 0));
    var b := Next(a, Post(t));
    n := Next(b, SchedulerStep);
    RunOne(b, SchedulerStep);
    RunMore(a, Post(t), [SchedulerStep], n);
    es := [Store(t, 0)] + ([Post(t)] + [SchedulerStep]);
    RunMore(s, Store(t, 0), [Post(t)] + [SchedulerStep], n);
    assert n.pipes[s.pipeOf[t]] == [0];
    assert n.producers == s.producers;
  }

  /** A frame for the first pipe brings the scheduler to the second pipe. */
  lemma ReachSecond(s: State, t: nat) returns (es: seq<Event>, n: State)
    requires Init(s) && s.blocking && t < |s.producers| && s.pipeOf[t] == 0 && |s.pipes| >= 2
    ensures Runs(s, es, n) && Shape(n) && n.blocking && n.producers == s.producers && n.pipeOf == s.pipeOf
    ensures |n.pipes| == |s.pipes| && n.pipes[0] == [] && n.pipes[1] == [] && n.scheduler == Scan(1, true)
  {
    var a := Next(s, Store(t, 0));
    var b := Next(a, Post(t));
    var c := Next(b, SchedulerStep);
    var d := Next(c, SchedulerStep);
    n := Next(d, SchedulerStep);
    assert n.producers == s.producers && n.pipes[0] == [] && n.pipes[1] == [] && n.scheduler == Scan(1, true);
    hide *;
    es := [SchedulerStep];
    RunOne(d, SchedulerStep);
    RunMore(c, SchedulerStep, es, n);
    es := [SchedulerStep] + es;
    RunMore(b, SchedulerStep, es, n);
    es := [SchedulerStep] + es;
    RunMore(a, Post(t), es, n);
    es := [Post(t)] + es;
    RunMore(s, Store(t, 0), es, n);
    es := [Store(t, 0)] + es;
  }

  /** And one more frame for the first pipe is left there, as the scheduler waits on the second. */
  lemma StrandFirst(s: State, t: nat) returns (es: seq<Event>, n: State)
    requires Init(s) && s.blocking && t < |s.producers| && s.pipeOf[t] == 0 && |s.pipes| >= 2
    ensures Runs(s, es, n) && Stuck(n)
  {
    var first, e := ReachSecond(s, t);
    assert s.producers[t].Ready?;
    var f := Next(e, Store(t, 1));
    n := Next(f, Post(t));
    RunOne(f, Post(t));
    RunMore(e, Store(t, 1), [Post(t)], n);
    RunThen(s, first, e, [Store(t, 1)] + [Post(t)], n);
    es := first + ([Store(t, 1)] + [Post(t)]);
    assert n.pipes[0] == [1] && n.pipes[1] == [];
    assert n.producers == s.producers;
  }

  lemma {:induction false} RunThen(s: State, es: seq<Event>, m: State, fs: seq<Event>, n: State)
    requires Runs(s, es, m) && Runs(m, fs, n)
    ensures Runs(s, es + fs, n)
    decreases |es|
  {
    hide Enabled, Next;
    if es == [] {
      assert es + fs == fs;
    } else {
      RunThen(Next(s, es[0]), es[1..], m, fs, n);
      assert (es + fs)[1..] == es[1..] + fs;
    }
  }

  lemma RunOne(s: State, e: Event)
    requires Enabled(s, e)
    ensures Runs(s, [e], Next(s, e))
  {
    assert Runs(Next(s, e), [], Next(s, e));
  }

  lemma RunMore(s: State, e: Event, es: seq<Event>, n: State)
    requires Enabled(s, e) && Runs(Next(s, e), es, n)
    ensures Runs(s, [e] + es, n)
  {
    assert ([e] + es)[1..] == es;
  }

  /** Without producers nothing ever moves out of the scheduler's wait. */
  ghost predicate Silent(s: State) {
    Shape(s) && s.producers == [] && s.sem == 0 && s.scheduler.SemWait? && PipesEmpty(s)
  }

  lemma {:induction false} SilentKept(s: State, es: seq<Event>, n: State)
    requires Silent(s) && Runs(s, es, n)
    ensures Silent(n)
    decreases |es|
  {
    if es != [] {
      SilentKept(Next(s, es[0]), es[1..], n);
    }
  }

  /** Some run gets stuck. */
  ghost predicate Strands(s: State) {
    exists es, n :: Runs(s, es, n) && Stuck(n)
  }

  /** The blocking build can strand a frame inside a round if and only if there are two pipes and a producer. */
  lemma BlockingStrands(s: State)
    requires Init(s) && s.blocking
    ensures Strands(s) <==> |s.pipes| >= 2 && |s.producers| >= 1
  {
    hide Runs, Stuck, Init;
    if |s.pipes| >= 2 && |s.producers| >= 1 {
      var es, n := Strand(s);
    } else if Strands(s) {
      var es, n :| Runs(s, es, n) && Stuck(n);
      NeverStuck(s, es, n);
    }
  }

  lemma Strand(s: State) returns (es: seq<Event>, n: State)
    requires Init(s) && s.blocking && |s.pipes| >= 2 && |s.producers| >= 1
    ensures Runs(s, es, n) && Stuck(n)
  {
    if s.pipeOf[0] > 0 {
      es, n := StrandLater(s, 0);
    } else {
      es, n := StrandFirst(s, 0);
    }
  }

  lemma NeverStuck(s: State, es: seq<Event>, n: State)
    requires Init(s) && Runs(s, es, n) && (|s.pipes| <= 1 || s.producers == [])
    ensures !Stuck(n)
  {
    if s.producers == [] {
      SilentKept(s, es, n);
    } else {
      InitInv(s);
      RunKeeps(s, es, n);
    }
  }
}
