/** The frame pipeline finishes its work: without new frames every run of the build with workload balancing is short,
    and when no thread can move any more, everything has been inferred. */
module FrameProgress {
  import opened FramePipeline
  import opened Nonlinear

  /** Some thread can move without a new frame. */
  ghost predicate CanMove(s: State) {
    exists e :: Enabled(s, e) && !e.Store?
  }

  ghost predicate AllInferred(s: State)
    requires Shape(s)
  {
    forall p :: 0 <= p < |s.pipes| ==> s.produced[p] == Of(p, s.done[QueueOf(p)])
  }

  lemma NobodyMoves(s: State)
    requires Shape(s) && !s.blocking && !CanMove(s)
    ensures s.scheduler.SemWait? && s.sem == 0 && ProducersPosted(s)
    ensures forall k :: 0 <= k < 2 ==> s.infer[k].InferWait? && s.inferSem[k] == 0
  {
    assert !Enabled(s, SchedulerStep);
    forall t | 0 <= t < |s.producers| ensures s.producers[t].Ready? {
      assert !Enabled(s, Post(t));
    }
    forall k | 0 <= k < 2 ensures s.infer[k].InferWait? && s.inferSem[k] == 0 {
      assert !Enabled(s, InferStep(k));
    }
  }

  /** In every run, as long as a frame has not been inferred some thread can move. */
  lemma NeverDeadlocked(s: State, es: seq<Event>, n: State)
    requires Init(s) && Runs(s, es, n) && !s.blocking
    ensures Shape(n) && (CanMove(n) || AllInferred(n))
  {
    InitInv(s);
    RunKeeps(s, es, n);
    hide CanMove, Of, Runs, Init, Inv;
    assert Shape(n) by { InvShape(n); }
    if !CanMove(n) {
      NobodyMoves(n);
      forall p | 0 <= p < |n.pipes| ensures n.produced[p] == Of(p, n.done[QueueOf(p)]) {
        QuiescentMeansDone(s, es, n, p);
      }
    }
  }

  lemma InvShape(s: State)
    requires Inv(s)
    ensures Shape(s)
  {
  }

  // ---- what is left to do ----

  function Units(p: nat, pc: SchedulerPC): nat {
    match pc
    case SemWait => 0
    case Scan(i, taken) => if i <= p then p - i + 1 else 0
    case Holding(i, frame) => if i <= p then p - i + 7 else 0
    case Posting(i) => if i <= p then p - i + 5 else 0
  }

  /** The steps of one inference thread. */
  function Share(s: State, k: nat): nat
    requires Shape(s) && k < 2
  {
    |s.queues[k]| + 2 * s.inferSem[k] + if s.infer[k].Drain? then 1 else 0
  }

  /** Steps that are left at most: a post and a round for every stored frame not yet posted, a round for every post,
      and the way of every frame through the scheduler and its inference thread. */
  function Left(s: State): nat
    requires Shape(s)
  {
    var p := |s.pipes|;
    Times(Unposted(s.producers), p + 4) + Times(s.sem, p + 3) + 8 * Frames(s.pipes) + Units(p, s.scheduler)
    + Share(s, 0) + Share(s, 1)
  }

  function Times(a: nat, b: nat): nat {
    MulMono(0, a, b);
    a * b
  }

  lemma TimesNext(a: nat, b: nat)
    requires a > 0
    ensures Times(a, b) == Times(a - 1, b) + b
  {
    MulDist(a - 1, 1, b);
  }

  lemma LeftScheduler(s: State)
    requires Enabled(s, SchedulerStep) && !s.blocking
    ensures Left(Next(s, SchedulerStep)) < Left(s)
  {
    hide Times, Frames, Unposted;
    match s.scheduler
    case SemWait => TimesNext(s.sem, |s.pipes| + 3);
    case Scan(i, taken) =>
      if i < |s.pipes| && s.pipes[i] != [] {
        FramesUpdate(s.pipes, i, s.pipes[i][1..]);
      }
    case Holding(i, frame) =>
    case Posting(i) =>
  }

  lemma LeftLess(s: State, e: Event)
    requires Enabled(s, e) && !e.Store? && !s.blocking
    ensures Left(Next(s, e)) < Left(s)
  {
    hide Times, Frames, Unposted;
    match e
    case Post(t) =>
      UnpostedUpdate(s.producers, t, Ready);
      TimesNext(Unposted(s.producers), |s.pipes| + 4);
      TimesNext(s.sem + 1, |s.pipes| + 3);
    case SchedulerStep => LeftScheduler(s);
    case InferStep(k) =>
  }

  ghost predicate NoStore(es: seq<Event>) {
    forall j :: 0 <= j < |es| ==> !es[j].Store?
  }

  lemma {:induction false} RunShort(s: State, es: seq<Event>, n: State)
    requires Shape(s) && !s.blocking && Runs(s, es, n) && NoStore(es)
    ensures Shape(n) && |es| + Left(n) <= Left(s)
    decreases |es|
  {
    hide Left, Enabled;
    if es != [] {
      assert Enabled(s, es[0]) && !es[0].Store?;
      LeftLess(s, es[0]);
      RunShort(Next(s, es[0]), es[1..], n);
    }
  }

  /** After the last frame has been stored, whatever the order in which the threads move, they move no more often than
      Left says, and once none of them can move every frame has been inferred, in order. */
  lemma WorkIsDone(s: State, es: seq<Event>, m: State, fs: seq<Event>, n: State)
    requires Init(s) && !s.blocking && Runs(s, es, m) && Runs(m, fs, n) && NoStore(fs)
    ensures Shape(m) && |fs| <= Left(m)
    ensures Shape(n) && n.produced == m.produced && (!CanMove(n) ==> AllInferred(n))
  {
    InitInv(s);
    RunKeeps(s, es, m);
    InvShape(m);
    RunShort(m, fs, n);
    RunThen(s, es, m, fs, n);
    NeverDeadlocked(s, es + fs, n);
    SameProduced(m, fs, n);
  }

  lemma {:induction false} SameProduced(s: State, es: seq<Event>, n: State)
    requires Runs(s, es, n) && NoStore(es)
    ensures n.produced == s.produced
    decreases |es|
  {
    if es != [] {
      assert !es[0].Store?;
      SameProduced(Next(s, es[0]), es[1..], n);
    }
  }
}
