/** The frame pipe as a concurrent protocol: a free list and a FIFO of buffers behind one mutex and one condition
    variable, with the operations of any number of threads interleaved instruction by instruction. */
module DualPipe {

  type Buffer = nat
  datatype Option<T> = None | Some(value: T)

  /** Where a thread stands. The names say which operation it is in and what it does next. */
  datatype PC =
    | Idle
    | GetLock | GetCheck | GetUnlockEmpty | GetSleep | GetUnlock
    | PutLock(b: Buffer) | PutPush(b: Buffer) | PutUnlock
    | LoadLock(timed: bool) | LoadCheck(timed: bool, timeout: bool) | LoadWait(timed: bool) | LoadRelock(timed: bool)
    | LoadUnlock
    | NoWaitLock | NoWaitCheck | NoWaitUnlock
    | StoreLock(b: Buffer) | StorePush(b: Buffer) | StoreUnlock | StoreSignal

  /** free and full are m_inPipe and m_outPipe; owner is the thread inside the mutex; holder says whose hands a
      buffer is in. The histories and counters record what happened, and fault is raised when a thread releases a
      mutex that it does not hold or touches a list without it. */
  datatype State = State(free: seq<Buffer>, full: seq<Buffer>, owner: Option<nat>, pcs: seq<PC>,
                         holder: map<Buffer, nat>,
                         stored: seq<Buffer>, loaded: seq<Buffer>, acquired: nat, released: nat, fault: bool)

  datatype Operation = Get | Put(b: Buffer) | Load(timed: bool) | LoadNoWait | Store(b: Buffer)

  /** A step of the system: a thread starts an operation, executes its next instruction, or signals; a waiting
      thread wakes without a signal or because its time is up; a thread passes a buffer on to another. */
  datatype Event =
    | Begin(t: nat, op: Operation)
    | Advance(t: nat)
    | Signal(t: nat, woken: Option<nat>)
    | Wake(t: nat)
    | HandOver(t: nat, b: Buffer, u: nat)

  // ---- the instructions ----

  predicate Locks(pc: PC) {
    pc.GetLock? || pc.PutLock? || pc.LoadLock? || pc.LoadRelock? || pc.NoWaitLock? || pc.StoreLock?
  }

  predicate Unlocks(pc: PC) {
    pc.GetUnlockEmpty? || pc.GetUnlock? || pc.PutUnlock? || pc.LoadUnlock? || pc.NoWaitUnlock? || pc.StoreUnlock?
  }

  /** The thread reads or writes one of the lists. */
  predicate Touches(pc: PC) {
    pc.GetCheck? || pc.PutPush? || pc.LoadCheck? || pc.NoWaitCheck? || pc.StorePush?
  }

  /** The thread carries a buffer that it is about to push. */
  predicate Carries(pc: PC, b: Buffer) {
    (pc.PutLock? || pc.PutPush? || pc.StoreLock? || pc.StorePush?) && pc.b == b
  }

  function Start(op: Operation): PC {
    match op
    case Get => GetLock
    case Put(b) => PutLock(b)
    case Load(timed) => LoadLock(timed)
    case LoadNoWait => NoWaitLock
    case Store(b) => StoreLock(b)
  }

  predicate MayBegin(s: State, t: nat, op: Operation) {
    match op
    case Put(b) => b in s.holder && s.holder[b] == t
    case Store(b) => b in s.holder && s.holder[b] == t
    case _ => true
  }

  predicate Waiting(pc: PC) {
    pc.LoadWait?
  }

  predicate SomeWaiting(s: State) {
    exists u :: 0 <= u < |s.pcs| && Waiting(s.pcs[u])
  }

  predicate Enabled(s: State, e: Event) {
    && e.t < |s.pcs|
    && var pc := s.pcs[e.t];
       match e
       case Begin(t, op) => pc.Idle? && MayBegin(s, t, op)
       case Advance(t) => !pc.Idle? && !pc.LoadWait? && !pc.StoreSignal? && (Locks(pc) ==> s.owner.None?)
       case Signal(t, woken) =>
         pc.StoreSignal? && if woken.Some? then woken.value < |s.pcs| && Waiting(s.pcs[woken.value])
           else !SomeWaiting(s)
       case Wake(t) => pc.LoadWait?
       case HandOver(t, b, u) => u < |s.pcs| && b in s.holder && s.holder[b] == t && !Carries(pc, b)
  }

  function AfterLock(pc: PC): PC
    requires Locks(pc)
  {
    match pc
    case GetLock => GetCheck
    case PutLock(b) => PutPush(b)
    case LoadLock(timed) => LoadCheck(timed, false)
    case LoadRelock(timed) => LoadCheck(timed, timed)
    case NoWaitLock => NoWaitCheck
    case StoreLock(b) => StorePush(b)
  }

  function AfterUnlock(pc: PC): PC
    requires Unlocks(pc)
  {
    match pc
    case GetUnlockEmpty => GetSleep
    case StoreUnlock => StoreSignal
    case _ => Idle
  }

  function TakeFree(s: State, t: nat): State
    requires s.free != []
  {
    s.(free := s.free[1..], holder := s.holder[s.free[0] := t])
  }

  function TakeFull(s: State, t: nat): State
    requires s.full != []
  {
    s.(full := s.full[1..], holder := s.holder[s.full[0] := t], loaded := s.loaded + [s.full[0]])
  }

  /** One instruction inside the mutex that reads or writes a list. */
  function Touch(s: State, t: nat): State
    requires t < |s.pcs| && Touches(s.pcs[t])
  {
    var s := s.(fault := s.fault || s.owner != Some(t));
    match s.pcs[t]
    case GetCheck =>
      if s.free != [] then TakeFree(s, t).(pcs := s.pcs[t := GetUnlock])
      else s.(pcs := s.pcs[t := GetUnlockEmpty])
    case PutPush(b) => s.(free := [b] + s.free, holder := s.holder - {b}, pcs := s.pcs[t := PutUnlock])
    case LoadCheck(timed, timeout) =>
      if s.full != [] then TakeFull(s, t).(pcs := s.pcs[t := LoadUnlock])
      else if timed && timeout then s.(pcs := s.pcs[t := LoadUnlock])
      else s.(owner := None, released := s.released + 1, pcs := s.pcs[t := LoadWait(timed)])
    case NoWaitCheck =>
      if s.full != [] then TakeFull(s, t).(pcs := s.pcs[t := NoWaitUnlock])
      else s.(pcs := s.pcs[t := NoWaitUnlock])
    case StorePush(b) =>
      s.(full := s.full + [b], holder := s.holder - {b}, stored := s.stored + [b], pcs := s.pcs[t := StoreUnlock])
  }

  function Next(s: State, e: Event): State
    requires Enabled(s, e)
  {
    var pc := s.pcs[e.t];
    match e
    case Begin(t, op) => s.(pcs := s.pcs[t := Start(op)])
    case Advance(t) =>
      if Locks(pc) then s.(owner := Some(t), acquired := s.acquired + 1, pcs := s.pcs[t := AfterLock(pc)])
      else if Unlocks(pc) then
        s.(owner := None, released := s.released + 1,
          fault := s.fault || s.owner != Some(t), pcs := s.pcs[t := AfterUnlock(pc)])
      else if Touches(pc) then Touch(s, t)
      else s.(pcs := s.pcs[t := GetLock])
    case Signal(t, woken) =>
      if woken.Some? then s.(pcs := s.pcs[woken.value := LoadRelock(s.pcs[woken.value].timed)][t := Idle])
      else s.(pcs := s.pcs[t := Idle])
    case Wake(t) => s.(pcs := s.pcs[t := LoadRelock(pc.timed)])
    case HandOver(t, b, u) => s.(holder := s.holder[b := u])
  }

  /** After Initialize: the frames on the free list, every thread outside. */
  ghost predicate Init(s: State, buffers: set<Buffer>) {
    && Distinct(s.free) && (forall b :: b in s.free <==> b in buffers)
    && s.full == [] && s.owner.None? && s.holder == map[]
    && (forall t :: 0 <= t < |s.pcs| ==> s.pcs[t].Idle?)
    && s.stored == [] && s.loaded == [] && s.acquired == 0 && s.released == 0 && !s.fault
  }

  ghost predicate Distinct(s: seq<Buffer>) {
    forall a, b :: 0 <= a < b < |s| ==> s[a] != s[b]
  }

  // ---- the mutex ----

  /** The instructions between an acquisition and its release. */
  predicate Inside(pc: PC) {
    Touches(pc) || Unlocks(pc)
  }

  /** The thread inside is the owner, and acquisitions and releases alternate. */
  ghost predicate MutexInv(s: State) {
    && !s.fault
    && (forall t :: 0 <= t < |s.pcs| ==> (Inside(s.pcs[t]) <==> s.owner == Some(t)))
    && (s.owner.Some? ==> s.owner.value < |s.pcs|)
    && s.acquired == s.released + (if s.owner.Some? then 1 else 0)
  }

  lemma MutexTouch(s: State, t: nat)
    requires MutexInv(s) && t < |s.pcs| && Touches(s.pcs[t])
    ensures MutexInv(Touch(s, t))
  {
  }

  /** Outside the mutex a thread may move on as it likes. */
  lemma MutexMoves(s: State, t: nat, pc: PC)
    requires MutexInv(s) && t < |s.pcs| && !Inside(s.pcs[t]) && !Inside(pc)
    ensures MutexInv(s.(pcs := s.pcs[t := pc]))
  {
  }

  lemma MutexCrossed(s: State, t: nat)
    requires MutexInv(s) && t < |s.pcs| && (Locks(s.pcs[t]) || Unlocks(s.pcs[t]))
    requires Locks(s.pcs[t]) ==> s.owner.None?
    ensures MutexInv(Next(s, Advance(t)))
  {
    hide Touch;
  }

  lemma MutexKept(s: State, e: Event)
    requires MutexInv(s) && Enabled(s, e)
    ensures MutexInv(Next(s, e))
  {
    hide MutexInv, Touch;
    var n := Next(s, e);
    if e.Advance? && Touches(s.pcs[e.t]) {
      MutexTouch(s, e.t);
    } else if e.Advance? && (Locks(s.pcs[e.t]) || Unlocks(s.pcs[e.t])) {
      MutexCrossed(s, e.t);
    } else if e.Signal? && e.woken.Some? {
      var woken := LoadRelock(s.pcs[e.woken.value].timed);
      MutexMoves(s, e.woken.value, woken);
      MutexMoves(s.(pcs := s.pcs[e.woken.value := woken]), e.t, Idle);
    } else if e.HandOver? {
      MutexHandOver(s, n);
    } else {
      MutexMoves(s, e.t, n.pcs[e.t]);
    }
  }

  lemma MutexHandOver(s: State, n: State)
    requires MutexInv(s) && n == s.(holder := n.holder)
    ensures MutexInv(n)
  {
  }

  // ---- the places of the buffers ----

  /** Each buffer is in exactly one place: on the free list, in the FIFO, or in the hands of one thread; and a
      thread about to push a buffer has it in its hands. */
  ghost predicate Placed(free: seq<Buffer>, full: seq<Buffer>, holder: map<Buffer, nat>, pcs: seq<PC>,
          buffers: set<Buffer>) {
    && Distinct(free) && Distinct(full)
    && (forall b :: b in buffers <==> b in free || b in full || b in holder)
    && (forall b :: b in free ==> b !in full && b !in holder)
    && (forall b :: b in full ==> b !in holder)
    && (forall t, b :: 0 <= t < |pcs| && Carries(pcs[t], b) ==> b in holder && holder[b] == t)
  }

  ghost predicate PlacesInv(s: State, buffers: set<Buffer>) {
    Placed(s.free, s.full, s.holder, s.pcs, buffers)
  }

  lemma PlacedMove(free: seq<Buffer>, full: seq<Buffer>, holder: map<Buffer, nat>, pcs: seq<PC>, buffers: set<Buffer>,
          t: nat, pc: PC)
    requires Placed(free, full, holder, pcs, buffers) && t < |pcs|
    requires forall b :: Carries(pc, b) ==> b in holder && holder[b] == t
    ensures Placed(free, full, holder, pcs[t := pc], buffers)
  {
  }

  lemma PlacedTakeFree(free: seq<Buffer>, full: seq<Buffer>, holder: map<Buffer, nat>, pcs: seq<PC>,
          buffers: set<Buffer>, t: nat)
    requires Placed(free, full, holder, pcs, buffers) && free != [] && t < |pcs|
    ensures Placed(free[1..], full, holder[free[0] := t], pcs, buffers)
  {
    assert free == [free[0]] + free[1..];
    assert free[0] in free;
    assert free[0] !in free[1..];
  }

  lemma PlacedTakeFull(free: seq<Buffer>, full: seq<Buffer>, holder: map<Buffer, nat>, pcs: seq<PC>,
          buffers: set<Buffer>, t: nat)
    requires Placed(free, full, holder, pcs, buffers) && full != [] && t < |pcs|
    ensures Placed(free, full[1..], holder[full[0] := t], pcs, buffers)
  {
    assert full == [full[0]] + full[1..];
    assert full[0] in full;
    assert full[0] !in full[1..];
  }

  lemma PlacedGive(free: seq<Buffer>, full: seq<Buffer>, holder: map<Buffer, nat>, pcs: seq<PC>, buffers: set<Buffer>,
                   t: nat, b: Buffer, pc: PC)
    requires Placed(free, full, holder, pcs, buffers) && t < |pcs| && Carries(pcs[t], b) && forall c :: !Carries(pc, c)
    ensures Placed([b] + free, full, holder - {b}, pcs[t := pc], buffers)
    ensures Placed(free, full + [b], holder - {b}, pcs[t := pc], buffers)
  {
    assert b in holder && b !in free && b !in full;
    var now := pcs[t := pc];
    forall u, c | 0 <= u < |now| && Carries(now[u], c)
      ensures c in holder - {b} && holder[c] == u
    {
      assert u != t;
    }
  }

  /** The buffer returned last is the one handed out next. */
  lemma NewestFirst(s: State, t: nat, b: Buffer, n: State, u: nat)
    requires t < |s.pcs| && s.pcs[t] == PutPush(b) && n.free == Touch(s, t).free
    requires u < |n.pcs| && n.pcs[u].GetCheck?
    ensures b in Touch(n, u).holder && Touch(n, u).holder[b] == u && Touch(n, u).free == s.free
  {
    assert ([b] + s.free)[1..] == s.free;
  }

  lemma PlacesTouch(s: State, t: nat, buffers: set<Buffer>)
    requires PlacesInv(s, buffers) && t < |s.pcs| && Touches(s.pcs[t])
    ensures PlacesInv(Touch(s, t), buffers)
  {
    hide Placed;
    var pc, n := s.pcs[t], Touch(s, t);
    if pc.PutPush? || pc.StorePush? {
      PlacedGive(s.free, s.full, s.holder, s.pcs, buffers, t, pc.b, n.pcs[t]);
    } else {
      PlacedMove(s.free, s.full, s.holder, s.pcs, buffers, t, n.pcs[t]);
      if pc.GetCheck? && s.free != [] {
        PlacedTakeFree(s.free, s.full, s.holder, n.pcs, buffers, t);
      } else if (pc.LoadCheck? || pc.NoWaitCheck?) && s.full != [] {
        PlacedTakeFull(s.free, s.full, s.holder, n.pcs, buffers, t);
      }
    }
  }

  lemma PlacesKept(s: State, e: Event, buffers: set<Buffer>)
    requires PlacesInv(s, buffers) && Enabled(s, e)
    ensures PlacesInv(Next(s, e), buffers)
  {
    var pc, n := s.pcs[e.t], Next(s, e);
    if e.HandOver? {
      PlacesHandOver(s, e.t, e.b, e.u, buffers);
    } else if e.Advance? && Touches(pc) {
      PlacesTouch(s, e.t, buffers);
    } else {
      if e.Signal? && e.woken.Some? {
        PlacedMove(s.free, s.full, s.holder, s.pcs, buffers, e.woken.value, n.pcs[e.woken.value]);
        PlacedMove(s.free, s.full, s.holder, s.pcs[e.woken.value := n.pcs[e.woken.value]], buffers, e.t, Idle);
      } else {
        PlacedMove(s.free, s.full, s.holder, s.pcs, buffers, e.t, n.pcs[e.t]);
      }
    }
  }

  lemma PlacesHandOver(s: State, t: nat, b: Buffer, u: nat, buffers: set<Buffer>)
    requires PlacesInv(s, buffers) && Enabled(s, HandOver(t, b, u))
    ensures PlacesInv(Next(s, HandOver(t, b, u)), buffers)
  {
  }

  // ---- order ----

  /** What has been loaded, followed by what is waiting, is what has been stored, in order. */
  ghost predicate OrderInv(s: State) {
    s.stored == s.loaded + s.full
  }

  lemma OrderKept(s: State, e: Event)
    requires OrderInv(s) && Enabled(s, e)
    ensures OrderInv(Next(s, e))
  {
  }

  // ---- no lost wake-up ----

  predicate StillToSignal(pc: PC) {
    pc.StoreUnlock? || pc.StoreSignal?
  }

  /** A consumer on its way to look at the FIFO under the mutex. */
  predicate AboutToLook(pc: PC) {
    pc.LoadRelock? || pc.LoadCheck?
  }

  /** The threads that still owe a signal and the consumers that are about to look. */
  function Served(pcs: seq<PC>): nat {
    if pcs == [] then 0 else Served(pcs[1..]) + if StillToSignal(pcs[0]) || AboutToLook(pcs[0]) then 1 else 0
  }

  /** While any consumer waits, every frame in the FIFO is matched by a signal still to come or by a consumer that
      has been woken and is about to look. */
  ghost predicate WakeInv(s: State) {
    SomeWaiting(s) ==> |s.full| <= Served(s.pcs)
  }

  lemma {:induction false} ServedUpdate(pcs: seq<PC>, t: nat, pc: PC)
    requires t < |pcs|
    ensures Served(pcs[t := pc]) + (if StillToSignal(pcs[t]) || AboutToLook(pcs[t]) then 1 else 0)
         == Served(pcs) + (if StillToSignal(pc) || AboutToLook(pc) then 1 else 0)
  {
    if t == 0 {
      assert pcs[0 := pc][1..] == pcs[1..];
    } else {
      assert pcs[t := pc][1..] == pcs[1..][t - 1 := pc];
      ServedUpdate(pcs[1..], t - 1, pc);
    }
  }

  lemma WaitingUpdate(s: State, n: State, t: nat)
    requires t < |s.pcs| == |n.pcs| && n.pcs == s.pcs[t := n.pcs[t]] && !Waiting(n.pcs[t])
    ensures SomeWaiting(n) ==> SomeWaiting(s)
  {
    if SomeWaiting(n) {
      var u :| 0 <= u < |n.pcs| && Waiting(n.pcs[u]);
      assert Waiting(s.pcs[u]);
    }
  }

  lemma WakeTouch(s: State, t: nat)
    requires WakeInv(s) && t < |s.pcs| && Touches(s.pcs[t])
    ensures WakeInv(Touch(s, t))
  {
    var n := Touch(s, t);
    ServedUpdate(s.pcs, t, n.pcs[t]);
    if !Waiting(n.pcs[t]) {
      WaitingUpdate(s, n, t);
    }
  }

  /** A thread moves on without touching the FIFO, without waiting, and without ceasing to serve. */
  lemma WakeMoves(s: State, n: State, t: nat)
    requires WakeInv(s) && t < |s.pcs| == |n.pcs| && n.pcs == s.pcs[t := n.pcs[t]] && n.full == s.full
    requires !Waiting(n.pcs[t])
    requires StillToSignal(s.pcs[t]) || AboutToLook(s.pcs[t]) ==> StillToSignal(n.pcs[t]) || AboutToLook(n.pcs[t])
    ensures WakeInv(n)
  {
    hide SomeWaiting, Served;
    ServedUpdate(s.pcs, t, n.pcs[t]);
    WaitingUpdate(s, n, t);
  }

  lemma WakeSignal(s: State, t: nat, w: nat)
    requires WakeInv(s) && t < |s.pcs| && w < |s.pcs| && s.pcs[t].StoreSignal? && Waiting(s.pcs[w])
    ensures WakeInv(s.(pcs := s.pcs[w := LoadRelock(s.pcs[w].timed)][t := Idle]))
  {
    assert SomeWaiting(s);
    hide SomeWaiting, Served;
    var woken := LoadRelock(s.pcs[w].timed);
    ServedUpdate(s.pcs, w, woken);
    ServedUpdate(s.pcs[w := woken], t, Idle);
  }

  lemma WakeKept(s: State, e: Event)
    requires WakeInv(s) && Enabled(s, e)
    ensures WakeInv(Next(s, e))
  {
    var n := Next(s, e);
    if e.Signal? && e.woken.Some? {
      WakeSignal(s, e.t, e.woken.value);
    } else if e.Advance? && Touches(s.pcs[e.t]) {
      WakeTouch(s, e.t);
    } else if e.Signal? {
      WaitingUpdate(s, n, e.t);
    } else if !e.HandOver? {
      hide WakeInv;
      WakeMoves(s, n, e.t);
    }
  }

  lemma {:induction false} NobodyServed(pcs: seq<PC>)
    requires Served(pcs) > 0
    ensures exists t :: 0 <= t < |pcs| && (StillToSignal(pcs[t]) || AboutToLook(pcs[t]))
  {
    if !(StillToSignal(pcs[0]) || AboutToLook(pcs[0])) {
      var rest := pcs[1..];
      NobodyServed(rest);
      var t :| 0 <= t < |rest| && (StillToSignal(rest[t]) || AboutToLook(rest[t]));
      assert pcs[t + 1] == rest[t];
    }
  }

  // ---- all runs ----

  ghost predicate Runs(s: State, es: seq<Event>, n: State)
    decreases |es|
  {
    if es == [] then n == s else Enabled(s, es[0]) && Runs(Next(s, es[0]), es[1..], n)
  }

  ghost predicate Inv(s: State, buffers: set<Buffer>) {
    MutexInv(s) && PlacesInv(s, buffers) && OrderInv(s) && WakeInv(s)
  }

  lemma InitInv(s: State, buffers: set<Buffer>)
    requires Init(s, buffers)
    ensures Inv(s, buffers)
  {
  }

  lemma {:induction false} RunKeeps(s: State, es: seq<Event>, n: State, buffers: set<Buffer>)
    requires Inv(s, buffers) && Runs(s, es, n)
    ensures Inv(n, buffers)
    decreases |es|
  {
    hide MutexInv, PlacesInv, OrderInv, WakeInv, Enabled, Next;
    if es != [] {
      MutexKept(s, es[0]);
      PlacesKept(s, es[0], buffers);
      OrderKept(s, es[0]);
      WakeKept(s, es[0]);
      RunKeeps(Next(s, es[0]), es[1..], n, buffers);
    }
  }

  /** Safety of every run from Initialize on: no thread ever releases the mutex or touches a list without holding
      it, acquisitions and releases match, every buffer is in exactly one place, and frames come out in the order
      in which they went in. */
  lemma PipeSafe(s: State, es: seq<Event>, n: State, buffers: set<Buffer>)
    requires Init(s, buffers) && Runs(s, es, n)
    ensures !n.fault && n.acquired == n.released + (if n.owner.Some? then 1 else 0)
    ensures forall t, u :: 0 <= t < u < |n.pcs| ==> !(Inside(n.pcs[t]) && Inside(n.pcs[u]))
    ensures PlacesInv(n, buffers)
    ensures n.stored == n.loaded + n.full
  {
    InitInv(s, buffers);
    RunKeeps(s, es, n, buffers);
  }

  ghost predicate Held(s: State) {
    forall b :: b in s.holder ==> s.holder[b] < |s.pcs|
  }

  lemma HeldTouch(s: State, t: nat)
    requires Held(s) && t < |s.pcs| && Touches(s.pcs[t])
    ensures Held(Touch(s, t)) && |Touch(s, t).pcs| == |s.pcs|
  {
  }

  lemma HeldKept(s: State, e: Event)
    requires Held(s) && Enabled(s, e)
    ensures Held(Next(s, e)) && |Next(s, e).pcs| == |s.pcs|
  {
    if Touches(s.pcs[e.t]) {
      HeldTouch(s, e.t);
    }
    hide Touch;
  }

  /** In every run a buffer that is on neither list is in the hands of one of the threads. */
  lemma {:induction false} HeldByThreads(s: State, es: seq<Event>, n: State)
    requires Runs(s, es, n) && Held(s)
    ensures |n.pcs| == |s.pcs| && forall b :: b in n.holder ==> n.holder[b] < |s.pcs|
    decreases |es|
  {
    if es != [] {
      HeldKept(s, es[0]);
      hide Enabled, Next, Held;
      HeldByThreads(Next(s, es[0]), es[1..], n);
    }
  }

  /** A thread executes its next instruction or signals. */
  predicate Moves(e: Event) {
    e.Advance? || e.Signal?
  }

  /** In every run, as long as some thread is inside an operation and not asleep, some thread can move. */
  lemma NeverDeadlocked(s: State, es: seq<Event>, n: State, buffers: set<Buffer>, t: nat)
    requires Init(s, buffers) && Runs(s, es, n) && t < |n.pcs| && !n.pcs[t].Idle? && !n.pcs[t].LoadWait?
    ensures exists e :: Enabled(n, e) && Moves(e)
  {
    InitInv(s, buffers);
    RunKeeps(s, es, n, buffers);
    hide PlacesInv, OrderInv, WakeInv;
    if n.owner.Some? {
      assert Enabled(n, Advance(n.owner.value)) && Moves(Advance(n.owner.value));
    } else if n.pcs[t].StoreSignal? {
      CanSignal(n, t);
    } else {
      assert Enabled(n, Advance(t)) && Moves(Advance(t));
    }
  }

  lemma CanSignal(s: State, t: nat)
    requires t < |s.pcs| && s.pcs[t].StoreSignal?
    ensures exists e :: Enabled(s, e) && Moves(e)
  {
    if SomeWaiting(s) {
      var u :| 0 <= u < |s.pcs| && Waiting(s.pcs[u]);
      assert Enabled(s, Signal(t, Some(u))) && Moves(Signal(t, Some(u)));
    } else {
      assert Enabled(s, Signal(t, None)) && Moves(Signal(t, None));
    }
  }

  /** In every run, a consumer asleep on a FIFO that is not empty has a signal still to come, or another consumer
      has been woken and is about to look. */
  lemma NoLostWakeup(s: State, es: seq<Event>, n: State, buffers: set<Buffer>)
    requires Init(s, buffers) && Runs(s, es, n) && SomeWaiting(n) && n.full != []
    ensures exists t :: 0 <= t < |n.pcs| && (StillToSignal(n.pcs[t]) || AboutToLook(n.pcs[t]))
  {
    InitInv(s, buffers);
    RunKeeps(s, es, n, buffers);
    NobodyServed(n.pcs);
  }

  /** So a lone blocking consumer is never asleep on a FIFO that is not empty with no signal still to come. */
  lemma LoneConsumerWoken(s: State, es: seq<Event>, n: State, buffers: set<Buffer>, c: nat)
    requires Init(s, buffers) && Runs(s, es, n) && c < |n.pcs| && n.pcs[c].LoadWait? && n.full != []
    requires forall t :: 0 <= t < |n.pcs| && t != c ==> !AboutToLook(n.pcs[t])
    ensures exists t :: 0 <= t < |n.pcs| && StillToSignal(n.pcs[t])
  {
    assert Waiting(n.pcs[c]);
    NoLostWakeup(s, es, n, buffers);
    var t :| 0 <= t < |n.pcs| && (StillToSignal(n.pcs[t]) || AboutToLook(n.pcs[t]));
    assert StillToSignal(n.pcs[t]);
  }
}
