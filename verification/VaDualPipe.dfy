/** VaDualPipe as an object. Each method is one operation of a thread that meets no other inside the mutex; it changes
    the two lists as the code does and, beside them, extends a run of the protocol by the instructions it stands for.
    The lists are at all times those that the run ends with, so what holds of every run holds of the object. */
module VaDualPipe {
  import opened DualPipe

  class Pipe {
    var inPipe: seq<Buffer>
    var outPipe: seq<Buffer>
    ghost const start: State
    ghost const buffers: set<Buffer>
    ghost var events: seq<Event>
    ghost var now: State

    ghost predicate Ran()
      reads `events, `now
    {
      Init(start, buffers) && Runs(start, events, now)
    }

    ghost predicate Valid()
      reads this
    {
      Ran() && inPipe == now.free && outPipe == now.full
    }

    /** Thread t is outside every operation, and nobody is inside the mutex. */
    ghost predicate Outside(t: nat)
      reads this
    {
      t < |now.pcs| && now.pcs[t].Idle? && now.owner.None?
    }

    /** The constructor and Initialize: the frames are pushed at the front one by one. */
    constructor (frames: seq<Buffer>, ghost threads: nat)
      requires Distinct(frames)
      ensures Valid() && events == [] && |now.pcs| == threads && forall t :: 0 <= t < threads ==> Outside(t)
      ensures |inPipe| == |frames| && forall k :: 0 <= k < |frames| ==> inPipe[k] == frames[|frames| - 1 - k]
      ensures outPipe == [] && (forall b :: b in buffers <==> b in frames)
    {
      var list: seq<Buffer> := [];
      for i := 0 to |frames|
        invariant |list| == i && forall k :: 0 <= k < i ==> list[k] == frames[i - 1 - k]
      {
        list := [frames[i]] + list;
      }
      inPipe, outPipe := list, [];
      ghost var s := State(list, [], None, seq(threads, _ => Idle), map[], [], [], 0, 0, false);
      start, now, events := s, s, [];
      buffers := set b | b in frames;
      new;
      forall b
        ensures b in inPipe <==> b in frames
      {
        if b in frames {
          var k :| 0 <= k < |frames| && frames[k] == b;
          assert inPipe[|frames| - 1 - k] == b;
        }
      }
    }

    /** One more instruction of the run. */
    ghost method Step(e: Event)
      requires Ran() && Enabled(now, e)
      modifies `events, `now
      ensures Ran() && now == Next(old(now), e) && events == old(events) + [e]
    {
      RunsSnoc(start, events, now, e);
      events, now := events + [e], Next(now, e);
    }

    /** Starts an operation and takes the mutex. */
    ghost method Enter(t: nat, op: Operation)
      requires Ran() && Outside(t) && MayBegin(now, t, op)
      modifies `events, `now
      ensures Ran() && events == old(events) + [Begin(t, op), Advance(t)]
      ensures var was := old(now);
              now == was.(owner := Some(t), acquired := was.acquired + 1, pcs := was.pcs[t := AfterLock(Start(op))])
    {
      Step(Begin(t, op));
      Step(Advance(t));
      assert now.pcs == old(now.pcs)[t := AfterLock(Start(op))];
    }

    /** The instruction on the lists, inside the mutex. */
    ghost method Access(t: nat)
      requires Ran() && t < |now.pcs| && Touches(now.pcs[t])
      modifies `events, `now
      ensures Ran() && now == Touch(old(now), t) && events == old(events) + [Advance(t)]
    {
      Step(Advance(t));
    }

    /** Gives the mutex back. */
    ghost method Leave(t: nat)
      requires Ran() && t < |now.pcs| && Unlocks(now.pcs[t]) && now.owner == Some(t)
      modifies `events, `now
      ensures Ran() && events == old(events) + [Advance(t)]
      ensures var was := old(now);
              now == was.(owner := None, released := was.released + 1, pcs := was.pcs[t := AfterUnlock(was.pcs[t])])
    {
      Step(Advance(t));
    }

    /** A thread that waits inside the condition variable runs out of time and takes the mutex again. */
    ghost method TimeOut(t: nat)
      requires Ran() && t < |now.pcs| && now.pcs[t] == LoadWait(true) && now.owner.None?
      modifies `events, `now
      ensures Ran() && events == old(events) + [Wake(t), Advance(t)]
      ensures var was := old(now);
              now == was.(owner := Some(t), acquired := was.acquired + 1, pcs := was.pcs[t := LoadCheck(true, true)])
    {
      Step(Wake(t));
      Step(Advance(t));
      assert now.pcs == old(now.pcs)[t := LoadCheck(true, true)];
    }

    /** Signals the condition variable: a waiting thread, if there is one, goes for the mutex. */
    ghost method Notify(t: nat)
      requires Ran() && t < |now.pcs| && now.pcs[t].StoreSignal?
      modifies `events, `now
      ensures Ran() && now == old(now).(pcs := now.pcs) && |now.pcs| == |old(now.pcs)| && now.pcs[t].Idle?
      ensures old(SomeWaiting(now)) ==>
                exists u :: 0 <= u < |now.pcs| && Waiting(old(now.pcs)[u]) && now.pcs[u].LoadRelock?
    {
      if SomeWaiting(now) {
        var u :| 0 <= u < |now.pcs| && Waiting(now.pcs[u]);
        Step(Signal(t, Some(u)));
      } else {
        Step(Signal(t, None));
      }
    }

    /** One round of Get: the newest free buffer goes to the thread alone; without one the thread sleeps. */
    method TryGet(ghost t: nat) returns (buffer: Option<Buffer>)
      requires Valid() && Outside(t)
      modifies this
      ensures Valid() && outPipe == old(outPipe)
      ensures events == old(events) + [Begin(t, Get)] + [Advance(t), Advance(t), Advance(t)]
      ensures buffer == if old(inPipe) == [] then None else Some(old(inPipe)[0])
      ensures buffer.None? ==> inPipe == [] && now.pcs == old(now.pcs)[t := GetSleep] && now.owner.None?
      ensures buffer.Some? ==> Outside(t) && old(inPipe) == [buffer.value] + inPipe
      ensures buffer.Some? ==> now.holder == old(now.holder)[buffer.value := t]
      ensures buffer.Some? ==> buffer.value !in inPipe && buffer.value !in outPipe
    {
      hide Ran, Touch, Distinct, SomeWaiting, Delivered, MayBegin;
      buffer := None;
      Enter(t, Get);
      TouchGet(now, t);
      if |inPipe| > 0 {
        buffer := Some(inPipe[0]);
        inPipe := inPipe[1..];
      }
      Access(t);
      Leave(t);
      Safe();
    }

    method Put(buffer: Buffer, ghost t: nat)
      requires Valid() && Outside(t) && MayBegin(now, t, Operation.Put(buffer))
      modifies this
      ensures Valid() && Outside(t) && outPipe == old(outPipe)
      ensures events == old(events) + [Begin(t, Operation.Put(buffer))] + [Advance(t), Advance(t), Advance(t)]
      ensures inPipe == [buffer] + old(inPipe) && now.holder == old(now.holder) - {buffer}
    {
      hide Ran, Touch, Distinct, SomeWaiting, Delivered, MayBegin;
      Enter(t, Operation.Put(buffer));
      TouchPush(now, t);
      inPipe := [buffer] + inPipe;
      Access(t);
      Leave(t);
    }

    /** The oldest frame, or none. The frame loaded in the k-th place is the one stored in the k-th place. */
    method LoadNoWait(ghost t: nat) returns (buffer: Option<Buffer>)
      requires Valid() && Outside(t)
      modifies this
      ensures Valid() && Outside(t) && inPipe == old(inPipe)
      ensures events == old(events) + [Begin(t, Operation.LoadNoWait)] + [Advance(t), Advance(t), Advance(t)]
      ensures buffer == if old(outPipe) == [] then None else Some(old(outPipe)[0])
      ensures buffer.None? ==> outPipe == []
      ensures buffer.Some? ==> Delivered(old(now), buffer.value, t) && old(outPipe) == [buffer.value] + outPipe
    {
      hide Ran, Touch, Distinct, SomeWaiting, Delivered, MayBegin;
      buffer := None;
      Enter(t, Operation.LoadNoWait);
      TouchLoad(now, t);
      if |outPipe| > 0 {
        buffer := Some(outPipe[0]);
        outPipe := outPipe[1..];
      }
      Access(t);
      Leave(t);
      if buffer.Some? {
        Delivers(old(now), buffer.value, t);
      }
    }

    /** The loop of Load, from a look at the FIFO on. No frame arrives while the thread waits: with a time limit it
        waits until the time is up, looks once more and gives up; without one it is left asleep. */
    method Look(timed: bool, timeout0: bool, ghost t: nat) returns (buffer: Option<Buffer>)
      requires Valid() && t < |now.pcs| && now.pcs[t] == LoadCheck(timed, timeout0) && now.owner == Some(t)
      modifies this
      ensures Valid() && inPipe == old(inPipe) && |now.pcs| == |old(now.pcs)|
      ensures buffer == if old(outPipe) == [] then None else Some(old(outPipe)[0])
      ensures buffer.None? ==> outPipe == [] && now.holder == old(now.holder) && now.loaded == old(now.loaded)
      ensures buffer.None? ==> if timed then Outside(t) else Asleep(t)
      ensures buffer.Some? ==> Outside(t) && Delivered(old(now), buffer.value, t)
      ensures buffer.Some? ==> old(outPipe) == [buffer.value] + outPipe
    {
      hide Ran, Touch, Distinct, SomeWaiting, Delivered, MayBegin;
      buffer := None;
      var timeout := timeout0;
      while buffer.None?
        invariant Ran() && now.free == inPipe == old(inPipe) && now.full == outPipe
        invariant t < |now.pcs| && now.owner == Some(t) && |now.pcs| == old(|now.pcs|)
        invariant now.pcs[t] == if buffer.None? then LoadCheck(timed, timeout) else LoadUnlock
        invariant buffer.None? ==> outPipe == old(outPipe)
        invariant buffer.None? ==> now.holder == old(now.holder) && now.loaded == old(now.loaded)
        invariant buffer.Some? ==> now.holder == old(now.holder)[buffer.value := t]
        invariant buffer.Some? ==> now.loaded == old(now.loaded) + [buffer.value]
        invariant buffer.Some? ==> old(outPipe) == [buffer.value] + outPipe
        decreases buffer.None?, !timeout
      {
        TouchLoad(now, t);
        Access(t);
        if |outPipe| > 0 {
          buffer := Some(outPipe[0]);
          outPipe := outPipe[1..];
        } else if !timed {
          return;
        } else if !timeout {
          TimeOut(t);
          timeout := true;
        } else {
          break;
        }
      }
      Leave(t);
      if buffer.Some? {
        Delivers(old(now), buffer.value, t);
      }
    }

    /** Thread t sleeps inside Load, without a time limit and without the mutex. */
    ghost predicate Asleep(t: nat)
      reads this
    {
      t < |now.pcs| && now.pcs[t] == LoadWait(false) && now.owner.None?
    }

    /** Load up to its return, or without a time limit and without a frame up to where it sleeps. */
    method Load(timed: bool, ghost t: nat) returns (buffer: Option<Buffer>)
      requires Valid() && Outside(t)
      modifies this
      ensures Valid() && inPipe == old(inPipe)
      ensures buffer == if old(outPipe) == [] then None else Some(old(outPipe)[0])
      ensures buffer.None? ==> outPipe == [] && now.holder == old(now.holder) && now.loaded == old(now.loaded)
      ensures buffer.None? ==> if timed then Outside(t) else Asleep(t)
      ensures buffer.Some? ==> Outside(t) && Delivered(old(now), buffer.value, t)
      ensures buffer.Some? ==> old(outPipe) == [buffer.value] + outPipe
    {
      hide Ran, MayBegin;
      Enter(t, Operation.Load(timed));
      buffer := Look(timed, false, t);
    }

    /** The rest of Load for a thread that a store has woken: it takes the mutex again and looks once more. */
    method Resume(timed: bool, ghost t: nat) returns (buffer: Option<Buffer>)
      requires Valid() && t < |now.pcs| && now.pcs[t] == LoadRelock(timed) && now.owner.None?
      modifies this
      ensures Valid() && inPipe == old(inPipe)
      ensures buffer == if old(outPipe) == [] then None else Some(old(outPipe)[0])
      ensures buffer.None? ==> outPipe == [] && if timed then Outside(t) else Asleep(t)
      ensures buffer.Some? ==> Outside(t) && Delivered(old(now), buffer.value, t)
      ensures buffer.Some? ==> old(outPipe) == [buffer.value] + outPipe
    {
      hide Ran;
      Step(Advance(t));
      buffer := Look(timed, timed, t);
    }

    /** The frame is appended under the mutex, and one waiting consumer is woken after it. */
    method Store(buffer: Buffer, ghost t: nat)
      requires Valid() && Outside(t) && MayBegin(now, t, Operation.Store(buffer))
      modifies this
      ensures Valid() && Outside(t) && inPipe == old(inPipe)
      ensures outPipe == old(outPipe) + [buffer] && now.holder == old(now.holder) - {buffer}
      ensures now.stored == old(now.stored) + [buffer]
      ensures old(SomeWaiting(now)) ==>
                exists u :: 0 <= u < |now.pcs| == |old(now.pcs)| && Waiting(old(now.pcs)[u]) && now.pcs[u].LoadRelock?
    {
      hide Ran, Touch, Distinct, SomeWaiting, Delivered, MayBegin;
      Enter(t, Operation.Store(buffer));
      TouchPush(now, t);
      outPipe := outPipe + [buffer];
      Access(t);
      Leave(t);
      WaitingSame(old(now), now, t);
      Notify(t);
    }

    /** The thread got the frame alone, in the order of the stores. */
    ghost predicate Delivered(was: State, b: Buffer, t: nat)
      reads this
    {
      && now.holder == was.holder[b := t] && b !in inPipe && b !in outPipe
      && now.loaded == was.loaded + [b] && |was.loaded| < |now.stored| && now.stored[|was.loaded|] == b
    }

    /** What the protocol guarantees of every run, read off the object. */
    lemma Safe()
      requires Valid()
      ensures Distinct(inPipe) && Distinct(outPipe) && forall b :: b in inPipe ==> b !in outPipe
      ensures forall b :: b in buffers <==> b in inPipe || b in outPipe || b in now.holder
      ensures forall b :: b in now.holder ==> b !in inPipe && b !in outPipe
      ensures now.stored == now.loaded + outPipe
    {
      PipeSafe(start, events, now, buffers);
    }

    lemma Delivers(was: State, b: Buffer, t: nat)
      requires Valid() && now.holder == was.holder[b := t] && now.loaded == was.loaded + [b]
      ensures Delivered(was, b, t)
    {
      Safe();
    }
  }

  // ---- the accesses to the lists ----

  lemma TouchGet(s: State, t: nat)
    requires t < |s.pcs| && s.pcs[t].GetCheck? && s.owner == Some(t)
    ensures Touch(s, t) == if s.free != [] then TakeFree(s, t).(pcs := s.pcs[t := GetUnlock])
                           else s.(pcs := s.pcs[t := GetUnlockEmpty])
  {
  }

  lemma TouchLoad(s: State, t: nat)
    requires t < |s.pcs| && (s.pcs[t].LoadCheck? || s.pcs[t].NoWaitCheck?) && s.owner == Some(t)
    ensures var pc := s.pcs[t];
            var done := if pc.NoWaitCheck? then NoWaitUnlock else LoadUnlock;
            Touch(s, t) == if s.full != [] then TakeFull(s, t).(pcs := s.pcs[t := done])
                           else if pc.NoWaitCheck? || (pc.timed && pc.timeout) then s.(pcs := s.pcs[t := done])
                           else s.(owner := None, released := s.released + 1, pcs := s.pcs[t := LoadWait(pc.timed)])
  {
  }

  lemma TouchPush(s: State, t: nat)
    requires t < |s.pcs| && (s.pcs[t].PutPush? || s.pcs[t].StorePush?) && s.owner == Some(t)
    ensures var b, holder := s.pcs[t].b, s.holder - {s.pcs[t].b};
            Touch(s, t) == if s.pcs[t].PutPush?
                           then s.(free := [b] + s.free, holder := holder, pcs := s.pcs[t := PutUnlock])
                           else s.(full := s.full + [b], holder := holder, stored := s.stored + [b],
                                   pcs := s.pcs[t := StoreUnlock])
  {
  }

  lemma WaitingSame(s: State, n: State, t: nat)
    requires t < |s.pcs| == |n.pcs| && s.pcs[t].Idle? && n.pcs == s.pcs[t := StoreSignal]
    ensures SomeWaiting(n) <==> SomeWaiting(s)
  {
    if SomeWaiting(s) {
      var u :| 0 <= u < |s.pcs| && Waiting(s.pcs[u]);
      assert Waiting(n.pcs[u]);
    }
  }

  lemma {:induction false} RunsSnoc(s: State, es: seq<Event>, n: State, e: Event)
    requires Runs(s, es, n) && Enabled(n, e)
    ensures Runs(s, es + [e], Next(n, e))
    decreases |es|
  {
    if es == [] {
      assert [e][1..] == [];
    } else {
      RunsSnoc(Next(s, es[0]), es[1..], n, e);
      assert (es + [e])[1..] == es[1..] + [e];
    }
  }
}
