/** WorkerBase and PyQueueTap: threads that call start(), stop() or a query, and the worker
    thread, meet at two locks, the start/stop mutex and the python interpreter lock (GIL),
    and at a python queue that can be full and can be shut down. One step is one atomic
    action of one thread, in any interleaving. */
module GilProtocol {
  import opened Packets
  import opened PyTap
  import opened Counting

  type Caller = int

  datatype Holder = Call(c: Caller) | Work | Python    // Python: any other thread

  datatype Kind = Start | Stop(immediate: bool) | Query

  /** Where a caller is. had: it held the GIL when it called, and takes it back at the end. */
  datatype Phase =
    | Outside
    | WantMutex(kind: Kind, had: bool)   // ReleaseGilIfHeld done
    | Locked(kind: Kind, had: bool)
    | WantGil(kind: Kind, had: bool)
    | WithGil(kind: Kind, had: bool)
    | SettingQuit(had: bool)             // stop(): queue shut down
    | Joining(had: bool)                 // stop(): waits for the worker thread
    | Resetting(had: bool)               // start(): new queue in place
    | JoiningOld(had: bool)              // start(): joins a worker that ended by itself
    | Launching(had: bool)
    | Leaving(had: bool)                 // mutex released

  ghost predicate HoldsMutex(p: Phase) {
    !p.Outside? && !p.WantMutex? && !p.Leaving?
  }

  /** Where the worker thread is. Putting, Logging and Finishing hold the GIL; Blocked is the wait
      for a free slot inside put(), which gives the GIL up. Logging is e.what() of an exception
      from put(). */
  datatype WorkerPc =
    | Top | Reading | WantGilToPut | Putting | Blocked | WantGilToLog | Logging
    | WantGilToFinish | Finishing | Ending | Exited

  ghost predicate HoldsGil(pc: WorkerPc) {
    pc == Putting || pc == Logging || pc == Finishing
  }

  /** hand: the packet inside consume(). error: an exception from put() is stored. */
  datatype Worker = Worker(
    pc: WorkerPc, quit: bool, tapShut: bool, queue: nat, hand: Option<ReceivedPacket>, error: bool)

  /** A python queue and, as history, the calls of consume() for it, their packets and fates so
      far, and what get() and shutdown() have taken out. */
  datatype QueueState = QueueState(
    content: seq<ReceivedPacket>, shut: bool,
    calls: nat, given: seq<Given>, read: seq<ReceivedPacket>, discarded: seq<ReceivedPacket>)

  const EMPTY_QUEUE: QueueState := QueueState([], false, 0, [], [], [])

  datatype State = State(
    blocking: bool, capacity: nat,       // capacity 0 is unbounded
    mutex: Option<Caller>, gil: Option<Holder>,
    phases: map<Caller, Phase>,
    worker: Option<Worker>,
    queues: seq<QueueState>,             // all queues so far, queue_ is the last one
    queueUsed: bool)

  ghost predicate Init(s: State) {
    && s.mutex == None && s.gil == None && s.worker == None && !s.queueUsed
    && s.queues == [EMPTY_QUEUE]
    && forall c | c in s.phases :: s.phases[c] == Outside
  }

  ghost predicate At(s: State, c: Caller, p: Phase) {
    c in s.phases && s.phases[c] == p
  }

  ghost function Current(s: State): int { |s.queues| - 1 }

  ghost predicate IsRunning(s: State) {
    s.worker.Some? && s.worker.value.pc != Exited
  }

  ghost predicate IsFull(s: State, q: QueueState) {
    s.capacity > 0 && |q.content| >= s.capacity
  }

  // ---- callers ----

  ghost predicate Enter(s: State, t: State, c: Caller, kind: Kind) {
    && At(s, c, Outside)
    && t == s.(phases := s.phases[c := WantMutex(kind, s.gil == Some(Call(c)))],
               gil := if s.gil == Some(Call(c)) then None else s.gil)
  }

  ghost predicate Lock(s: State, t: State, c: Caller) {
    && c in s.phases && s.phases[c].WantMutex? && s.mutex == None
    && t == s.(mutex := Some(c), phases := s.phases[c := Locked(s.phases[c].kind, s.phases[c].had)])
  }

  ghost function Unlocked(s: State, c: Caller, had: bool): State {
    s.(mutex := None, phases := s.phases[c := Leaving(had)])
  }

  /** Queries, stop() without a worker, start() while running or with a source that cannot
      be set up return here; the others go on to take the GIL. */
  ghost predicate Decide(s: State, t: State, c: Caller) {
    && c in s.phases && s.phases[c].Locked?
    && var kind, had := s.phases[c].kind, s.phases[c].had;
       var onward := s.(phases := s.phases[c := WantGil(kind, had)]);
       match kind
       case Query =>                       // rethrowException() takes the stored exception away
         || t == Unlocked(s, c, had)
         || (s.worker.Some? && t == Unlocked(s, c, had).(worker := Some(s.worker.value.(error := false))))
       case Stop(_) => t == if s.worker == None then Unlocked(s, c, had) else onward
       case Start => t == Unlocked(s, c, had) || (!IsRunning(s) && t == onward)
  }

  ghost predicate TakeGil(s: State, t: State, c: Caller) {
    && c in s.phases && s.phases[c].WantGil? && s.gil == None
    && t == s.(gil := Some(Call(c)), phases := s.phases[c := WithGil(s.phases[c].kind, s.phases[c].had)])
  }

  ghost function ShutDown(q: QueueState, immediate: bool): QueueState {
    if immediate then q.(shut := true, discarded := q.discarded + q.content, content := []) else q.(shut := true)
  }

  /** stop() shuts queue_ down, start() replaces it unless it is unused; then the GIL goes. */
  ghost predicate UseGil(s: State, t: State, c: Caller) {
    && c in s.phases && s.phases[c].WithGil? && |s.queues| > 0
    && match s.phases[c].kind
       case Stop(immediate) =>
         t == s.(gil := None, phases := s.phases[c := SettingQuit(s.phases[c].had)],
                 queues := s.queues[Current(s) := ShutDown(s.queues[Current(s)], immediate)])
       case Start =>
         t == s.(gil := None, phases := s.phases[c := Resetting(s.phases[c].had)], queueUsed := true,
                 queues := if s.queueUsed then s.queues + [EMPTY_QUEUE] else s.queues)
       case Query => false
  }

  ghost predicate SetQuit(s: State, t: State, c: Caller) {
    && c in s.phases && s.phases[c].SettingQuit? && s.worker.Some?
    && t == s.(worker := Some(s.worker.value.(quit := true)), phases := s.phases[c := Joining(s.phases[c].had)])
  }

  ghost predicate Join(s: State, t: State, c: Caller) {
    && c in s.phases && s.phases[c].Joining? && s.worker.Some? && s.worker.value.pc == Exited
    && t == Unlocked(s, c, s.phases[c].had)
  }

  /** worker_.reset(): the destructor of a previous worker calls its stop(). */
  ghost predicate Reset(s: State, t: State, c: Caller) {
    && c in s.phases && s.phases[c].Resetting?
    && t == if s.worker == None then s.(phases := s.phases[c := Launching(s.phases[c].had)])
            else s.(worker := Some(s.worker.value.(quit := true)), phases := s.phases[c := JoiningOld(s.phases[c].had)])
  }

  /** The stored exception takes the GIL for its own destruction. */
  ghost predicate JoinOld(s: State, t: State, c: Caller) {
    && c in s.phases && s.phases[c].JoiningOld? && s.worker.Some? && s.worker.value.pc == Exited
    && (s.worker.value.error ==> s.gil == None)
    && t == s.(worker := None, phases := s.phases[c := Launching(s.phases[c].had)])
  }

  ghost predicate Launch(s: State, t: State, c: Caller) {
    && c in s.phases && s.phases[c].Launching? && |s.queues| > 0
    && t == Unlocked(s, c, s.phases[c].had).(worker := Some(Worker(Top, false, false, Current(s), None, false)))
  }

  ghost predicate Leave(s: State, t: State, c: Caller) {
    && c in s.phases && s.phases[c].Leaving? && (s.phases[c].had ==> s.gil == None)
    && t == s.(phases := s.phases[c := Outside], gil := if s.phases[c].had then Some(Call(c)) else s.gil)
  }

  // ---- the worker thread ----

  ghost function Moved(s: State, pc: WorkerPc): State
    requires s.worker.Some?
  {
    s.(worker := Some(s.worker.value.(pc := pc)))
  }

  ghost predicate WorkerAt(s: State, pc: WorkerPc) {
    s.worker.Some? && s.worker.value.pc == pc && s.worker.value.queue < |s.queues|
  }

  ghost predicate TopStep(s: State, t: State) {
    WorkerAt(s, Top) && t == Moved(s, if s.worker.value.quit then WantGilToFinish else Reading)
  }

  /** The fate of a packet: kept ones go into the queue. */
  ghost function Judged(q: QueueState, rp: ReceivedPacket, fate: Fate): QueueState {
    q.(given := q.given + [Given(rp, fate)], content := if fate == Kept then q.content + [rp] else q.content)
  }

  /** consume(): a tap that has seen ShutDown refuses the packet at once. */
  ghost function Consumed(s: State, rp: ReceivedPacket): State
    requires s.worker.Some? && s.worker.value.queue < |s.queues|
  {
    var w := s.worker.value;
    var q := s.queues[w.queue].(calls := s.queues[w.queue].calls + 1);
    if w.tapShut then Moved(s, Top).(queues := s.queues[w.queue := Judged(q, rp, Refused)])
    else s.(worker := Some(w.(pc := WantGilToPut, hand := Some(rp))), queues := s.queues[w.queue := q])
  }

  /** A timeout or invalid packet; the end of the data or an exception; a packet for the tap. */
  ghost predicate ReadStep(s: State, t: State) {
    WorkerAt(s, Reading) && (t == Moved(s, Top) || t == Moved(s, WantGilToFinish) || exists rp :: t == Consumed(s, rp))
  }

  /** Takes the GIL to put, also on its way back from waiting for a free slot. */
  ghost predicate GilToPutStep(s: State, t: State) {
    && s.gil == None
    && (WorkerAt(s, WantGilToPut)
        || (WorkerAt(s, Blocked) && var q := s.queues[s.worker.value.queue]; q.shut || !IsFull(s, q)))
    && t == Moved(s, Putting).(gil := Some(Work))
  }

  /** The end of put(), which gives the GIL up. */
  ghost function Settled(s: State, pc: WorkerPc, fate: Fate): State
    requires s.worker.Some? && s.worker.value.queue < |s.queues| && s.worker.value.hand.Some?
  {
    var w := s.worker.value;
    s.(worker := Some(w.(pc := pc, hand := None)), gil := None,
       queues := s.queues[w.queue := Judged(s.queues[w.queue], w.hand.value, fate)])
  }

  ghost function NoMorePuts(s: State): State
    requires s.worker.Some?
  {
    s.(worker := Some(s.worker.value.(tapShut := true)))
  }

  /** put(): ShutDown ends the tap's interest, a full queue blocks or counts a drop; putting
      may also fail with another exception, which is logged and ends the loop. */
  ghost predicate PutStep(s: State, t: State) {
    && WorkerAt(s, Putting) && s.worker.value.hand.Some?
    && var q := s.queues[s.worker.value.queue];
       || t == Settled(s, WantGilToLog, Refused)
       || t == match PutOutcome(q.shut, |q.content|, s.capacity, s.blocking)
               case ShutDown => NoMorePuts(Settled(s, Top, Refused))
               case Stored => Settled(s, Top, Kept)
               case WouldBlock => Moved(s, Blocked).(gil := None)
               case Full => Settled(s, Top, Dropped)
  }

  ghost predicate GilToLogStep(s: State, t: State) {
    WorkerAt(s, WantGilToLog) && s.gil == None && t == Moved(s, Logging).(gil := Some(Work))
  }

  ghost predicate LogStep(s: State, t: State) {
    && WorkerAt(s, Logging)
    && t == s.(worker := Some(s.worker.value.(pc := WantGilToFinish, error := true)), gil := None)
  }

  ghost predicate GilToFinishStep(s: State, t: State) {
    WorkerAt(s, WantGilToFinish) && s.gil == None && t == Moved(s, Finishing).(gil := Some(Work))
  }

  ghost predicate FinishStep(s: State, t: State) {
    && WorkerAt(s, Finishing)
    && t == Moved(s, Ending).(gil := None,
         queues := s.queues[s.worker.value.queue := ShutDown(s.queues[s.worker.value.queue], false)])
  }

  ghost predicate EndStep(s: State, t: State) {
    WorkerAt(s, Ending) && t == Moved(s, Exited)
  }

  ghost predicate WorkerStep(s: State, t: State) {
    || TopStep(s, t) || ReadStep(s, t) || GilToPutStep(s, t) || PutStep(s, t)
    || GilToLogStep(s, t) || LogStep(s, t) || GilToFinishStep(s, t) || FinishStep(s, t) || EndStep(s, t)
  }

  // ---- python code ----

  ghost predicate MayHold(s: State, h: Holder) {
    h == Python || (h.Call? && At(s, h.c, Outside))
  }

  ghost predicate PythonTakes(s: State, t: State, h: Holder) {
    s.gil == None && MayHold(s, h) && t == s.(gil := Some(h))
  }

  ghost predicate PythonReleases(s: State, t: State) {
    s.gil.Some? && MayHold(s, s.gil.value) && t == s.(gil := None)
  }

  ghost function Read(q: QueueState): QueueState
    requires q.content != []
  {
    q.(content := q.content[1..], read := q.read + [q.content[0]])
  }

  /** queue.get(), with the GIL. */
  ghost predicate PythonGets(s: State, t: State, i: nat) {
    && s.gil.Some? && MayHold(s, s.gil.value) && i < |s.queues| && s.queues[i].content != []
    && t == s.(queues := s.queues[i := Read(s.queues[i])])
  }

  /** A step inside a call of start(), stop() or a query. */
  ghost predicate CallerStep(s: State, t: State, c: Caller) {
    || Lock(s, t, c) || Decide(s, t, c) || TakeGil(s, t, c) || UseGil(s, t, c) || SetQuit(s, t, c)
    || Join(s, t, c) || Reset(s, t, c) || JoinOld(s, t, c) || Launch(s, t, c) || Leave(s, t, c)
  }

  datatype Move =
    | Entering(c: Caller, kind: Kind) | Calling(c: Caller) | Working
    | Taking(h: Holder) | Releasing | Getting(i: nat)

  ghost predicate Next(s: State, t: State, m: Move) {
    match m
    case Entering(c, kind) => Enter(s, t, c, kind)
    case Calling(c) => CallerStep(s, t, c)
    case Working => WorkerStep(s, t)
    case Taking(h) => PythonTakes(s, t, h)
    case Releasing => PythonReleases(s, t)
    case Getting(i) => PythonGets(s, t, i)
  }

  // ---- the invariant ----

  /** Who may hold which lock. A caller holds the GIL only in python code or, with the mutex
      already in hand, for its short use of the queue. */
  ghost predicate LockInv(s: State) {
    && (forall c | c in s.phases :: HoldsMutex(s.phases[c]) <==> s.mutex == Some(c))
    && (s.mutex.Some? ==> s.mutex.value in s.phases)
    && (forall c | c in s.phases :: s.phases[c].WithGil? ==> s.gil == Some(Call(c)))
    && (s.gil.Some? && s.gil.value.Call? ==>
          s.gil.value.c in s.phases && (s.phases[s.gil.value.c].Outside? || s.phases[s.gil.value.c].WithGil?))
    && (s.gil == Some(Work) <==> s.worker.Some? && HoldsGil(s.worker.value.pc))
  }

  /** What the caller that holds the mutex knows about the worker. */
  ghost predicate CallInv(s: State, p: Phase) {
    match p
    case WantGil(kind, _) => if kind.Start? then !IsRunning(s) else kind.Stop? && s.worker.Some?
    case WithGil(kind, _) => if kind.Start? then !IsRunning(s) else kind.Stop? && s.worker.Some?
    case SettingQuit(_) => s.worker.Some? && s.worker.value.queue < |s.queues| && s.queues[s.worker.value.queue].shut
    case Joining(_) =>
      && s.worker.Some? && s.worker.value.queue < |s.queues| && s.queues[s.worker.value.queue].shut
      && s.worker.value.quit
    case Resetting(_) => !IsRunning(s)
    case JoiningOld(_) => s.worker.Some? && !IsRunning(s)
    case Launching(_) => s.worker == None
    case _ => true
  }

  ghost predicate InPut(pc: WorkerPc) {
    pc == WantGilToPut || pc == Putting || pc == Blocked
  }

  ghost predicate QueueInv(s: State) {
    && |s.queues| > 0
    && (s.worker.Some? ==> s.worker.value.queue < |s.queues|)
    && (s.worker.Some? && InPut(s.worker.value.pc) ==> s.worker.value.hand.Some?)
    && (s.worker.Some? && (s.worker.value.pc == Ending || s.worker.value.pc == Exited) ==>
          s.queues[s.worker.value.queue].shut)
    && (s.worker.Some? && s.worker.value.queue != Current(s) ==>
          s.mutex.Some? && s.mutex.value in s.phases
          && (s.phases[s.mutex.value].Resetting? || s.phases[s.mutex.value].JoiningOld?))
  }

  ghost predicate Inv(s: State) {
    LockInv(s) && QueueInv(s) && (s.mutex.Some? ==> CallInv(s, s.phases[s.mutex.value]))
  }

  lemma InitInv(s: State)
    requires Init(s)
    ensures Inv(s)
  {
  }

  lemma EnterKeeps(s: State, t: State, c: Caller, kind: Kind)
    requires Inv(s) && Enter(s, t, c, kind)
    ensures Inv(t)
  {
  }

  lemma LockKeeps(s: State, t: State, c: Caller)
    requires Inv(s) && Lock(s, t, c)
    ensures Inv(t)
  {
  }

  lemma DecideKeeps(s: State, t: State, c: Caller)
    requires Inv(s) && Decide(s, t, c)
    ensures Inv(t)
  {
    if s.phases[c].kind.Stop? {
    } else if t == Unlocked(s, c, s.phases[c].had) {
    } else {
    }
  }

  lemma TakeGilKeeps(s: State, t: State, c: Caller)
    requires Inv(s) && TakeGil(s, t, c)
    ensures Inv(t)
  {
  }

  lemma UseGilKeeps(s: State, t: State, c: Caller)
    requires Inv(s) && UseGil(s, t, c)
    ensures Inv(t)
  {
  }

  lemma SetQuitKeeps(s: State, t: State, c: Caller)
    requires Inv(s) && SetQuit(s, t, c)
    ensures Inv(t)
  {
  }

  lemma JoinKeeps(s: State, t: State, c: Caller)
    requires Inv(s) && Join(s, t, c)
    ensures Inv(t)
  {
  }

  lemma ResetKeeps(s: State, t: State, c: Caller)
    requires Inv(s) && Reset(s, t, c)
    ensures Inv(t)
  {
  }

  lemma JoinOldKeeps(s: State, t: State, c: Caller)
    requires Inv(s) && JoinOld(s, t, c)
    ensures Inv(t)
  {
  }

  lemma LaunchKeeps(s: State, t: State, c: Caller)
    requires Inv(s) && Launch(s, t, c)
    ensures Inv(t)
  {
  }

  lemma LeaveKeeps(s: State, t: State, c: Caller)
    requires Inv(s) && Leave(s, t, c)
    ensures Inv(t)
  {
  }

  lemma TopStepKeeps(s: State, t: State)
    requires Inv(s) && TopStep(s, t)
    ensures Inv(t)
  {
  }

  lemma ConsumedKeeps(s: State, rp: ReceivedPacket)
    requires Inv(s) && WorkerAt(s, Reading)
    ensures Inv(Consumed(s, rp))
  {
    var t, w := Consumed(s, rp), s.worker.value;
    assert t.mutex == s.mutex && t.gil == s.gil && t.phases == s.phases && |t.queues| == |s.queues|;
    assert t.queues[w.queue].shut == s.queues[w.queue].shut;
    hide Consumed;
  }

  lemma ReadStepKeeps(s: State, t: State)
    requires Inv(s) && ReadStep(s, t)
    ensures Inv(t)
  {
    hide Consumed, Judged;
    if t == Moved(s, Top) {
    } else if t == Moved(s, WantGilToFinish) {
    } else {
      var rp :| t == Consumed(s, rp);
      ConsumedKeeps(s, rp);
    }
  }

  lemma GilToPutStepKeeps(s: State, t: State)
    requires Inv(s) && GilToPutStep(s, t)
    ensures Inv(t)
  {
  }

  lemma SettledKeeps(s: State, pc: WorkerPc, fate: Fate)
    requires Inv(s) && WorkerAt(s, Putting) && s.worker.value.hand.Some? && (pc == Top || pc == WantGilToLog)
    ensures Inv(Settled(s, pc, fate)) && Inv(NoMorePuts(Settled(s, pc, fate)))
  {
  }

  lemma BlockedKeeps(s: State)
    requires Inv(s) && WorkerAt(s, Putting) && s.worker.value.hand.Some?
    ensures Inv(Moved(s, Blocked).(gil := None))
  {
  }

  lemma PutStepKeeps(s: State, t: State)
    requires Inv(s) && PutStep(s, t)
    ensures Inv(t)
  {
    hide Inv, Settled, NoMorePuts, IsFull;
    SettledKeeps(s, WantGilToLog, Refused);
    SettledKeeps(s, Top, Refused);
    SettledKeeps(s, Top, Kept);
    SettledKeeps(s, Top, Dropped);
    BlockedKeeps(s);
  }

  lemma GilToLogStepKeeps(s: State, t: State)
    requires Inv(s) && GilToLogStep(s, t)
    ensures Inv(t)
  {
  }

  lemma LogStepKeeps(s: State, t: State)
    requires Inv(s) && LogStep(s, t)
    ensures Inv(t)
  {
  }

  lemma GilToFinishStepKeeps(s: State, t: State)
    requires Inv(s) && GilToFinishStep(s, t)
    ensures Inv(t)
  {
  }

  lemma FinishStepKeeps(s: State, t: State)
    requires Inv(s) && FinishStep(s, t)
    ensures Inv(t)
  {
  }

  lemma EndStepKeeps(s: State, t: State)
    requires Inv(s) && EndStep(s, t)
    ensures Inv(t)
  {
  }

  lemma PythonTakesKeeps(s: State, t: State, h: Holder)
    requires Inv(s) && PythonTakes(s, t, h)
    ensures Inv(t)
  {
  }

  lemma PythonReleasesKeeps(s: State, t: State)
    requires Inv(s) && PythonReleases(s, t)
    ensures Inv(t)
  {
  }

  lemma PythonGetsKeeps(s: State, t: State, i: nat)
    requires Inv(s) && PythonGets(s, t, i)
    ensures Inv(t)
  {
  }

  lemma CallerStepKeeps(s: State, t: State, c: Caller)
    requires Inv(s) && CallerStep(s, t, c)
    ensures Inv(t)
  {
    hide Inv, Lock, Decide, TakeGil, UseGil, SetQuit, Join, Reset, JoinOld, Launch, Leave;
    if Lock(s, t, c) {
      LockKeeps(s, t, c);
    } else if Decide(s, t, c) {
      DecideKeeps(s, t, c);
    } else if TakeGil(s, t, c) {
      TakeGilKeeps(s, t, c);
    } else if UseGil(s, t, c) {
      UseGilKeeps(s, t, c);
    } else if SetQuit(s, t, c) {
      SetQuitKeeps(s, t, c);
    } else if Join(s, t, c) {
      JoinKeeps(s, t, c);
    } else if Reset(s, t, c) {
      ResetKeeps(s, t, c);
    } else if JoinOld(s, t, c) {
      JoinOldKeeps(s, t, c);
    } else if Launch(s, t, c) {
      LaunchKeeps(s, t, c);
    } else {
      LeaveKeeps(s, t, c);
    }
  }

  lemma WorkerStepKeeps(s: State, t: State)
    requires Inv(s) && WorkerStep(s, t)
    ensures Inv(t)
  {
    hide Inv, TopStep, ReadStep, GilToPutStep, PutStep, GilToLogStep, LogStep, GilToFinishStep, FinishStep, EndStep;
    if TopStep(s, t) {
      TopStepKeeps(s, t);
    } else if ReadStep(s, t) {
      ReadStepKeeps(s, t);
    } else if GilToPutStep(s, t) {
      GilToPutStepKeeps(s, t);
    } else if PutStep(s, t) {
      PutStepKeeps(s, t);
    } else if GilToLogStep(s, t) {
      GilToLogStepKeeps(s, t);
    } else if LogStep(s, t) {
      LogStepKeeps(s, t);
    } else if GilToFinishStep(s, t) {
      GilToFinishStepKeeps(s, t);
    } else if FinishStep(s, t) {
      FinishStepKeeps(s, t);
    } else {
      EndStepKeeps(s, t);
    }
  }

  lemma NextKeeps(s: State, t: State, m: Move)
    requires Inv(s) && Next(s, t, m)
    ensures Inv(t)
  {
    hide Inv, Enter, CallerStep, WorkerStep, PythonTakes, PythonReleases, PythonGets;
    match m
    case Entering(c, kind) => EnterKeeps(s, t, c, kind);
    case Calling(c) => CallerStepKeeps(s, t, c);
    case Working => WorkerStepKeeps(s, t);
    case Taking(h) => PythonTakesKeeps(s, t, h);
    case Releasing => PythonReleasesKeeps(s, t);
    case Getting(i) => PythonGetsKeeps(s, t, i);
  }

  // ---- runs ----

  ghost predicate Steps(b: seq<State>, moves: seq<Move>) {
    && |b| == |moves| + 1
    && forall i | 0 <= i < |moves| :: Next(b[i], b[i + 1], moves[i])
  }

  lemma {:induction false} StepsKeep(b: seq<State>, moves: seq<Move>, i: nat)
    requires Steps(b, moves) && Inv(b[0]) && i < |b|
    ensures Inv(b[i])
  {
    hide Inv, Next;
    if i > 0 {
      StepsKeep(b, moves, i - 1);
      NextKeeps(b[i - 1], b[i], moves[i - 1]);
    }
  }

  /** Lock order, in every run: no caller holds the GIL while it waits for the mutex, for the
      GIL or for the worker thread, only the mutex holder waits for the other two, and the
      worker does not hold the GIL while it waits for it or for a free slot. */
  lemma NobodyWaitsWithGil(b: seq<State>, moves: seq<Move>, i: nat)
    requires Steps(b, moves) && Init(b[0]) && i < |b|
    ensures forall c | c in b[i].phases && b[i].gil == Some(Call(c)) ::
      b[i].phases[c].Outside? || (b[i].phases[c].WithGil? && b[i].mutex == Some(c))
    ensures b[i].gil == Some(Work) ==>
      b[i].worker.Some? && HoldsGil(b[i].worker.value.pc)
  {
    InitInv(b[0]);
    StepsKeep(b, moves, i);
  }

  // ---- no deadlock ----

  /** A step of the thread that holds the GIL, which gives it up. */
  ghost predicate GilMove(s: State, t: State, m: Move) {
    && s.gil.Some? && t.gil == None
    && match s.gil.value
       case Python => m == Releasing
       case Call(d) => m == (if d in s.phases && s.phases[d].WithGil? then Calling(d) else Releasing)
       case Work => m == Working
  }

  /** The worker cannot move because somebody has the GIL. */
  ghost predicate WorkerWaits(s: State) {
    && s.worker.Some? && s.gil.Some?
    && (s.worker.value.pc == WantGilToPut || s.worker.value.pc == Blocked
        || s.worker.value.pc == WantGilToLog || s.worker.value.pc == WantGilToFinish)
  }

  /** The next step in what the mutex holder c waits for: its own if it waits for nothing,
      that of the GIL holder, or that of the worker it joins. */
  ghost predicate OwnerChain(s: State, t: State, m: Move, c: Caller)
    requires c in s.phases
  {
    match s.phases[c]
    case WantGil(_, _) => if s.gil == None then m == Calling(c) else GilMove(s, t, m)
    case Joining(_) =>
      if !IsRunning(s) then m == Calling(c) else if WorkerWaits(s) then GilMove(s, t, m) else m == Working
    case JoiningOld(_) =>
      if s.worker.Some? && s.worker.value.error && s.gil.Some? then GilMove(s, t, m) else m == Calling(c)
    case _ => m == Calling(c)
  }

  /** The next step in what any caller waits for. */
  ghost predicate CallChain(s: State, t: State, m: Move, c: Caller)
    requires c in s.phases
  {
    match s.phases[c]
    case WantMutex(_, _) =>
      if s.mutex == None then m == Calling(c) else s.mutex.value in s.phases && OwnerChain(s, t, m, s.mutex.value)
    case Leaving(had) => if had && s.gil.Some? then GilMove(s, t, m) else m == Calling(c)
    case _ => s.mutex == Some(c) && OwnerChain(s, t, m, c)
  }

  /** Whoever holds the GIL can give it up in its next step. */
  lemma HolderMoves(s: State) returns (t: State, m: Move)
    requires Inv(s) && s.gil.Some?
    ensures Next(s, t, m) && GilMove(s, t, m)
  {
    match s.gil.value
    case Python =>
      t, m := s.(gil := None), Releasing;
    case Call(c) =>
      if s.phases[c].Outside? {
        t, m := s.(gil := None), Releasing;
      } else {
        var p, n := s.phases[c], |s.queues| - 1;
        m := Calling(c);
        if p.kind.Start? {
          t := s.(gil := None, phases := s.phases[c := Resetting(p.had)], queueUsed := true,
                  queues := if s.queueUsed then s.queues + [EMPTY_QUEUE] else s.queues);
        } else {
          t := s.(gil := None, phases := s.phases[c := SettingQuit(p.had)],
                  queues := s.queues[n := ShutDown(s.queues[n], p.kind.immediate)]);
        }
        assert UseGil(s, t, c);
      }
    case Work =>
      m := Working;
      if s.worker.value.pc == Putting {
        t := Settled(s, WantGilToLog, Refused);
        assert PutStep(s, t);
      } else if s.worker.value.pc == Logging {
        t := s.(worker := Some(s.worker.value.(pc := WantGilToFinish, error := true)), gil := None);
        assert LogStep(s, t);
      } else {
        t := Moved(s, Ending).(gil := None,
               queues := s.queues[s.worker.value.queue := ShutDown(s.queues[s.worker.value.queue], false)]);
        assert FinishStep(s, t);
      }
  }

  /** A worker whose queue is shut down can move unless it is done or waits for the GIL. */
  lemma ShutWorkerMoves(s: State) returns (t: State)
    requires Inv(s) && IsRunning(s) && s.queues[s.worker.value.queue].shut && !WorkerWaits(s)
    ensures WorkerStep(s, t)
  {
    var m;
    match s.worker.value.pc
    case Top =>
      t := Moved(s, if s.worker.value.quit then WantGilToFinish else Reading);
      assert TopStep(s, t);
    case Reading =>
      t := Moved(s, Top);
      assert ReadStep(s, t);
    case WantGilToPut =>
      t := Moved(s, Putting).(gil := Some(Work));
      assert GilToPutStep(s, t);
    case Blocked =>
      t := Moved(s, Putting).(gil := Some(Work));
      assert GilToPutStep(s, t);
    case WantGilToLog =>
      t := Moved(s, Logging).(gil := Some(Work));
      assert GilToLogStep(s, t);
    case WantGilToFinish =>
      t := Moved(s, Finishing).(gil := Some(Work));
      assert GilToFinishStep(s, t);
    case Ending =>
      t := Moved(s, Exited);
      assert EndStep(s, t);
    case _ =>
      t, m := HolderMoves(s);
  }

  /** The step of the caller that holds the mutex, or of whoever it waits for. */
  lemma OwnerMoves(s: State, c: Caller) returns (t: State, m: Move)
    requires Inv(s) && s.mutex == Some(c)
    ensures Next(s, t, m) && OwnerChain(s, t, m, c)
  {
    var p := s.phases[c];
    m := Calling(c);
    if p.Locked? {
      t := if p.kind.Stop? && s.worker.Some? then s.(phases := s.phases[c := WantGil(p.kind, p.had)])
           else Unlocked(s, c, p.had);
      assert Decide(s, t, c);
    } else if p.WithGil? || (s.gil.Some? && p.WantGil?) || (p.Joining? && WorkerWaits(s))
           || (s.gil.Some? && p.JoiningOld? && s.worker.value.error) {
      t, m := HolderMoves(s);
    } else if p.WantGil? {
      t := s.(gil := Some(Call(c)), phases := s.phases[c := WithGil(p.kind, p.had)]);
      assert TakeGil(s, t, c);
    } else if p.SettingQuit? {
      t := s.(worker := Some(s.worker.value.(quit := true)), phases := s.phases[c := Joining(p.had)]);
      assert SetQuit(s, t, c);
    } else if p.Joining? && s.worker.value.pc != Exited {
      t := ShutWorkerMoves(s);
      m := Working;
    } else if p.Joining? {
      t := Unlocked(s, c, p.had);
      assert Join(s, t, c);
    } else if p.Resetting? {
      t := if s.worker == None then s.(phases := s.phases[c := Launching(p.had)])
           else s.(worker := Some(s.worker.value.(quit := true)), phases := s.phases[c := JoiningOld(p.had)]);
      assert Reset(s, t, c);
    } else if p.JoiningOld? {
      t := s.(worker := None, phases := s.phases[c := Launching(p.had)]);
      assert JoinOld(s, t, c);
    } else {
      t := Unlocked(s, c, p.had).(worker := Some(Worker(Top, false, false, |s.queues| - 1, None, false)));
      assert Launch(s, t, c);
    }
  }

  /** No deadlock: while a call is under way, the step it is waiting for, or its own, is possible,
      without the help of anybody who calls, takes the GIL or reads from a queue. */
  lemma NoDeadlock(b: seq<State>, moves: seq<Move>, i: nat, c: Caller) returns (t: State, m: Move)
    requires Steps(b, moves) && Init(b[0]) && i < |b| && c in b[i].phases && !b[i].phases[c].Outside?
    ensures Next(b[i], t, m) && CallChain(b[i], t, m, c)
  {
    InitInv(b[0]);
    StepsKeep(b, moves, i);
    t, m := CallMoves(b[i], c);
  }

  lemma CallMoves(s: State, c: Caller) returns (t: State, m: Move)
    requires Inv(s) && c in s.phases && !s.phases[c].Outside?
    ensures Next(s, t, m) && CallChain(s, t, m, c)
  {
    var p := s.phases[c];
    if p.WantMutex? && s.mutex == None {
      t, m := s.(mutex := Some(c), phases := s.phases[c := Locked(p.kind, p.had)]), Calling(c);
      assert Lock(s, t, c);
    } else if p.Leaving? && p.had && s.gil.Some? {
      t, m := HolderMoves(s);
    } else if p.Leaving? {
      t, m := s.(phases := s.phases[c := Outside], gil := if p.had then Some(Call(c)) else s.gil), Calling(c);
      assert Leave(s, t, c);
    } else {
      t, m := OwnerMoves(s, s.mutex.value);
    }
  }

  /** How many steps of its own a call may still take. */
  ghost function Remaining(p: Phase): nat {
    match p
    case WantMutex(_, _) => 8
    case Locked(_, _) => 7
    case WantGil(_, _) => 6
    case WithGil(_, _) => 5
    case SettingQuit(_) => 3
    case Joining(_) => 2
    case Resetting(_) => 4
    case JoiningOld(_) => 3
    case Launching(_) => 2
    case Leaving(_) => 1
    case Outside => 0
  }

  /** The call of c is nearer its end, and no other one has changed. */
  ghost predicate Advances(s: State, t: State, c: Caller) {
    && c in s.phases && c in t.phases && Remaining(t.phases[c]) < Remaining(s.phases[c]) <= 8
    && t.phases == s.phases[c := t.phases[c]]
  }

  // ---- what becomes of the packets ----

  /** The queue whose tap is inside consume() with a packet. */
  ghost function HandOf(s: State): Option<nat> {
    if s.worker.Some? && s.worker.value.hand.Some? then Some(s.worker.value.queue) else None
  }

  ghost predicate HandOk(s: State) {
    s.worker.Some? ==>
      && (s.worker.value.hand.Some? <==> InPut(s.worker.value.pc))
      && (s.worker.value.pc == Blocked ==> s.blocking)
  }

  /** Every call of consume() but the pending one has settled its packet; what was ever in the
      queue are the kept packets in the order given, of which python code has read the first. */
  ghost predicate QueueOk(blocking: bool, capacity: nat, q: QueueState, pending: bool) {
    && q.calls == |q.given| + (if pending then 1 else 0)
    && q.read + q.discarded + q.content == KeptOf(q.given)
    && (q.discarded != [] ==> q.shut && q.content == [])
    && (blocking ==> Count(q.given, WasDropped) == 0)
    && (capacity > 0 ==> |q.content| <= capacity)
  }

  ghost predicate Ledger(s: State) {
    && HandOk(s) && (HandOf(s).Some? ==> HandOf(s).value < |s.queues|)
    && forall q: nat | q < |s.queues| :: QueueOk(s.blocking, s.capacity, s.queues[q], HandOf(s) == Some(q))
  }

  ghost predicate SameLog(q: QueueState, q': QueueState) {
    q'.given == q.given && q'.calls == q.calls
  }

  /** Nothing was given to any tap, and no queue but empty ones was added. */
  ghost predicate SameLogs(s: State, t: State) {
    && |s.queues| <= |t.queues|
    && (forall q | 0 <= q < |s.queues| :: SameLog(s.queues[q], t.queues[q]))
    && (forall q | |s.queues| <= q < |t.queues| :: SameLog(EMPTY_QUEUE, t.queues[q]))
  }

  ghost predicate SameHand(s: State, t: State) {
    && t.blocking == s.blocking && t.capacity == s.capacity
    && (HandOk(s) ==> HandOk(t) && HandOf(t) == HandOf(s))
  }

  // ---- stop() ends ----

  ghost predicate Stopping(s: State, c: Caller) {
    c in s.phases && s.phases[c].Joining?
  }

  /** How many steps a worker with quit_ set and its queue shut down may still take. */
  ghost function Rank(s: State): nat {
    if s.worker == None then 0
    else match s.worker.value.pc
         case Reading => 8
         case WantGilToPut => 7
         case Blocked => 7
         case Putting => 6
         case WantGilToLog => 5
         case Logging => 4
         case Top => 4
         case WantGilToFinish => 3
         case Finishing => 2
         case Ending => 1
         case Exited => 0
  }

  lemma InvLocks(s: State)
    requires Inv(s)
    ensures LockInv(s)
  {
  }

  /** The worker of a stop() that waits has been told to quit and cannot block. */
  ghost predicate Told(s: State) {
    s.worker.Some? && s.worker.value.quit && s.worker.value.queue < |s.queues| && s.queues[s.worker.value.queue].shut
  }

  lemma StoppingTold(s: State, c: Caller)
    requires Inv(s) && Stopping(s, c)
    ensures Told(s) && s.mutex == Some(c)
  {
  }

  lemma TowardsPutEffect(s: State, t: State)
    requires TopStep(s, t) || ReadStep(s, t) || GilToPutStep(s, t)
    ensures t.phases == s.phases && (Told(s) ==> Rank(t) < Rank(s))
  {
  }

  lemma PutEffect(s: State, t: State)
    requires PutStep(s, t)
    ensures t.phases == s.phases && (Told(s) ==> Rank(t) < Rank(s))
  {
  }

  lemma TowardsExitEffect(s: State, t: State)
    requires GilToLogStep(s, t) || LogStep(s, t) || GilToFinishStep(s, t) || FinishStep(s, t) || EndStep(s, t)
    ensures t.phases == s.phases && (Told(s) ==> Rank(t) < Rank(s))
  {
  }

  /** Each step of a worker told to quit brings it nearer its end. */
  lemma WorkerEffect(s: State, t: State)
    requires WorkerStep(s, t)
    ensures t.phases == s.phases && (Told(s) ==> Rank(t) < Rank(s))
  {
    hide TopStep, ReadStep, GilToPutStep, PutStep, GilToLogStep, LogStep, GilToFinishStep, FinishStep, EndStep;
    hide Told, Rank;
    if PutStep(s, t) {
      PutEffect(s, t);
    } else if TopStep(s, t) || ReadStep(s, t) || GilToPutStep(s, t) {
      TowardsPutEffect(s, t);
    } else {
      TowardsExitEffect(s, t);
    }
  }

  lemma OthersKeepRank(s: State, t: State, m: Move, c: Caller)
    requires LockInv(s) && Next(s, t, m) && s.mutex == Some(c) && Stopping(s, c) && m != Calling(c) && !m.Working?
    ensures Stopping(t, c) && Rank(t) == Rank(s)
  {
    hide UseGil, Enter, PythonTakes, PythonReleases, PythonGets, CallerStep;
    if m.Calling? {
      OtherCallerWaits(s, t, m.c, c);
    } else {
      PythonLeavesWorker(s, t, m, c);
    }
  }

  lemma PythonLeavesWorker(s: State, t: State, m: Move, c: Caller)
    requires Next(s, t, m) && !m.Calling? && !m.Working? && Stopping(s, c)
    ensures Stopping(t, c) && t.worker == s.worker
  {
  }

  lemma OtherCallerWaits(s: State, t: State, d: Caller, c: Caller)
    requires LockInv(s) && CallerStep(s, t, d) && s.mutex == Some(c) && Stopping(s, c) && d != c
    ensures Stopping(t, c) && t.worker == s.worker
  {
    assert d in s.phases && s.phases[d].Leaving?;
  }

  /** From the join on, stop() waits for at most eight more steps of the worker, whatever
      all the other threads do meanwhile and however full the queue is. */
  lemma {:induction false} StopIsBounded(b: seq<State>, moves: seq<Move>, c: Caller)
    requires Steps(b, moves) && Inv(b[0]) && Stopping(b[0], c) && Calling(c) !in moves
    ensures Stopping(b[|moves|], c)
    ensures multiset(moves)[Working] + Rank(b[|moves|]) <= Rank(b[0]) <= 8
  {
    hide Inv, Next, Stopping, WorkerStep;
    var n := |moves|;
    if n > 0 {
      StopIsBounded(b[..n], moves[..n - 1], c);
      StepsKeep(b, moves, n - 1);
      assert moves == moves[..n - 1] + [moves[n - 1]];
      StopStep(b[n - 1], b[n], moves[n - 1], c);
    }
  }

  lemma StopStep(s: State, t: State, m: Move, c: Caller)
    requires Inv(s) && Next(s, t, m) && Stopping(s, c) && m != Calling(c)
    ensures Stopping(t, c) && Rank(t) <= Rank(s) && (m.Working? ==> Rank(t) < Rank(s))
  {
    hide Inv, WorkerStep, Rank, Told, LockInv;
    StoppingTold(s, c);
    if m.Working? {
      WorkerEffect(s, t);
    } else {
      assert LockInv(s) by { InvLocks(s); }
      OthersKeepRank(s, t, m, c);
    }
  }

  /** While stop() waits, either the worker is done and the join returns, or the worker can
      move, or python code holds the GIL and can give it up. */
  lemma StopProgresses(s: State, c: Caller) returns (t: State, m: Move)
    requires Inv(s) && Stopping(s, c)
    ensures Next(s, t, m)
    ensures Rank(s) == 0 ==> m == Calling(c) && t.phases[c].Leaving? && t.mutex == None
    ensures Rank(s) > 0 ==> m.Working? || (m.Releasing? && s.gil.Some? && s.gil != Some(Work))
  {
    assert s.mutex == Some(c);
    if s.worker.value.pc == Exited {
      t, m := Unlocked(s, c, s.phases[c].had), Calling(c);
      assert Join(s, t, c);
    } else if s.gil.Some? {
      t, m := HolderMoves(s);
    } else {
      t := ShutWorkerMoves(s);
      m := Working;
    }
  }

  // ---- nothing after stop() ----

  ghost predicate Launches(s: State, m: Move) {
    m.Calling? && m.c in s.phases && s.phases[m.c].Launching?
  }

  lemma QueueEffect(s: State, t: State, c: Caller)
    requires UseGil(s, t, c)
    ensures SameLogs(s, t) && (IsRunning(t) ==> IsRunning(s) || Launches(s, Calling(c)))
    ensures SameHand(s, t) || (Launch(s, t, c) && s.worker.Some?)
    ensures t.queues == s.queues || UseGil(s, t, c)
    ensures Advances(s, t, c)
  {
  }

  lemma DecideEffect(s: State, t: State, c: Caller)
    requires Decide(s, t, c)
    ensures SameLogs(s, t) && (IsRunning(t) ==> IsRunning(s) || Launches(s, Calling(c)))
    ensures SameHand(s, t) || (Launch(s, t, c) && s.worker.Some?)
    ensures t.queues == s.queues || UseGil(s, t, c)
    ensures Advances(s, t, c)
  {
  }

  lemma StopEffect(s: State, t: State, c: Caller)
    requires Lock(s, t, c) || TakeGil(s, t, c) || SetQuit(s, t, c) || Join(s, t, c)
    ensures SameLogs(s, t) && (IsRunning(t) ==> IsRunning(s) || Launches(s, Calling(c)))
    ensures SameHand(s, t) || (Launch(s, t, c) && s.worker.Some?)
    ensures t.queues == s.queues || UseGil(s, t, c)
    ensures Advances(s, t, c)
  {
  }

  lemma StartEffect(s: State, t: State, c: Caller)
    requires Reset(s, t, c) || JoinOld(s, t, c) || Launch(s, t, c) || Leave(s, t, c)
    ensures SameLogs(s, t) && (IsRunning(t) ==> IsRunning(s) || Launches(s, Calling(c)))
    ensures SameHand(s, t) || (Launch(s, t, c) && s.worker.Some?)
    ensures t.queues == s.queues || UseGil(s, t, c)
    ensures Advances(s, t, c)
  {
  }

  /** A step of a call gives nothing to the tap, starts a worker only at the launch, and brings
      the call nearer its end: it takes at most eight steps of its own. */
  lemma CallerEffect(s: State, t: State, c: Caller)
    requires CallerStep(s, t, c)
    ensures SameLogs(s, t) && (IsRunning(t) ==> IsRunning(s) || Launches(s, Calling(c)))
    ensures SameHand(s, t) || (Launch(s, t, c) && s.worker.Some?)
    ensures t.queues == s.queues || UseGil(s, t, c)
    ensures Advances(s, t, c)
  {
    hide Lock, Decide, TakeGil, UseGil, SetQuit, Join, Reset, JoinOld, Launch, Leave;
    hide SameLogs, SameHand, Launches, IsRunning, Advances;
    if UseGil(s, t, c) {
      QueueEffect(s, t, c);
    } else if Reset(s, t, c) || JoinOld(s, t, c) || Launch(s, t, c) || Leave(s, t, c) {
      StartEffect(s, t, c);
    } else if Decide(s, t, c) {
      DecideEffect(s, t, c);
    } else {
      StopEffect(s, t, c);
    }
  }

  lemma QuietStep(s: State, t: State, m: Move)
    requires Next(s, t, m) && !IsRunning(s) && !Launches(s, m)
    ensures !IsRunning(t) && SameLogs(s, t)
  {
    hide CallerStep, Launches;
    if m.Calling? {
      CallerEffect(s, t, m.c);
    }
  }

  /** Once the worker has ended, stop() having returned or not, nothing is put into any queue
      and nothing is dropped or refused before start() launches the next worker. */
  lemma {:induction false} QuietUntilLaunch(b: seq<State>, moves: seq<Move>, i: nat)
    requires Steps(b, moves) && !IsRunning(b[0]) && i < |b|
    requires forall k | 0 <= k < i :: !Launches(b[k], moves[k])
    ensures !IsRunning(b[i]) && SameLogs(b[0], b[i])
  {
    hide Next, Launches;
    if i > 0 {
      QuietUntilLaunch(b, moves, i - 1);
      QuietStep(b[i - 1], b[i], moves[i - 1]);
    }
  }

  /** A queue that was shut down stays shut and never grows again, whatever happens next. */
  lemma {:induction false} ShutQueuesOnlyShrink(b: seq<State>, moves: seq<Move>, i: nat, q: nat)
    requires Steps(b, moves) && i < |b| && q < |b[0].queues| && b[0].queues[q].shut
    ensures q < |b[i].queues| && b[i].queues[q].shut && |b[i].queues[q].content| <= |b[0].queues[q].content|
  {
    hide Next;
    if i > 0 {
      ShutQueuesOnlyShrink(b, moves, i - 1, q);
      ShutStep(b[i - 1], b[i], moves[i - 1], q);
    }
  }

  lemma ShutStep(s: State, t: State, m: Move, q: nat)
    requires Next(s, t, m) && q < |s.queues| && s.queues[q].shut
    ensures q < |t.queues| && t.queues[q].shut && |t.queues[q].content| <= |s.queues[q].content|
  {
    hide CallerStep, WorkerStep, Enter, PythonTakes, PythonReleases;
    if m.Calling? {
      ShutByCaller(s, t, m.c, q);
    } else if m.Working? {
      ShutByWorker(s, t, q);
    } else {
      ShutByPython(s, t, m, q);
    }
  }

  lemma ShutByCaller(s: State, t: State, c: Caller, q: nat)
    requires CallerStep(s, t, c) && q < |s.queues| && s.queues[q].shut
    ensures q < |t.queues| && t.queues[q].shut && |t.queues[q].content| <= |s.queues[q].content|
  {
    assert t.queues == s.queues || UseGil(s, t, c);
  }

  lemma ShutByWorker(s: State, t: State, q: nat)
    requires WorkerStep(s, t) && q < |s.queues| && s.queues[q].shut
    ensures q < |t.queues| && t.queues[q].shut && |t.queues[q].content| <= |s.queues[q].content|
  {
    hide PutStep, IsFull;
    if PutStep(s, t) {
      ShutByPut(s, t, q);
    } else if TopStep(s, t) || ReadStep(s, t) || GilToPutStep(s, t) {
    } else {
    }
  }

  lemma ShutByPut(s: State, t: State, q: nat)
    requires PutStep(s, t) && q < |s.queues| && s.queues[q].shut
    ensures q < |t.queues| && t.queues[q].shut && |t.queues[q].content| <= |s.queues[q].content|
  {
    hide IsFull;
  }

  lemma ShutByPython(s: State, t: State, m: Move, q: nat)
    requires Next(s, t, m) && !m.Calling? && !m.Working? && q < |s.queues| && s.queues[q].shut
    ensures q < |t.queues| && t.queues[q].shut && |t.queues[q].content| <= |s.queues[q].content|
  {
  }

  /** The worker of a stopped or finished run leaves its queue shut, so no get() waits for it. */
  lemma EndedQueueIsShut(b: seq<State>, moves: seq<Move>, i: nat)
    requires Steps(b, moves) && Init(b[0]) && i < |b| && b[i].worker.Some? && !IsRunning(b[i])
    ensures b[i].worker.value.queue < |b[i].queues| && b[i].queues[b[i].worker.value.queue].shut
  {
    InitInv(b[0]);
    StepsKeep(b, moves, i);
  }

  // ---- the ledger ----

  lemma LaunchIsFirst(s: State, t: State, c: Caller)
    requires Inv(s) && Launch(s, t, c)
    ensures s.worker == None
  {
  }

  lemma ShutDownOk(blocking: bool, capacity: nat, q: QueueState, pending: bool, immediate: bool)
    requires QueueOk(blocking, capacity, q, pending)
    ensures QueueOk(blocking, capacity, ShutDown(q, immediate), pending)
  {
    hide KeptOf;
    if immediate {
      assert q.read + (q.discarded + q.content) + [] == q.read + q.discarded + q.content;
    }
  }

  lemma ReadOk(blocking: bool, capacity: nat, q: QueueState, pending: bool)
    requires QueueOk(blocking, capacity, q, pending) && q.content != []
    ensures QueueOk(blocking, capacity, Read(q), pending)
  {
    hide KeptOf;
    assert q.discarded == [];
    assert q.read + [q.content[0]] + [] + q.content[1..] == q.read + [] + q.content;
  }

  lemma CalledOk(blocking: bool, capacity: nat, q: QueueState)
    requires QueueOk(blocking, capacity, q, false)
    ensures QueueOk(blocking, capacity, q.(calls := q.calls + 1), true)
  {
  }

  lemma JudgedOk(blocking: bool, capacity: nat, q: QueueState, rp: ReceivedPacket, fate: Fate)
    requires QueueOk(blocking, capacity, q, true)
    requires fate == Kept ==> !q.shut && (capacity > 0 ==> |q.content| < capacity)
    requires fate == Dropped ==> !blocking
    ensures QueueOk(blocking, capacity, Judged(q, rp, fate), false)
  {
    hide KeptOf, Count;
    KeptGrows(q.given, Given(rp, fate));
    if fate == Kept {
      assert q.read + [] + (q.content + [rp]) == q.read + [] + q.content + [rp];
    }
  }

  /** Steps that leave the queues alone. */
  lemma LedgerKept(s: State, t: State)
    requires Ledger(s) && SameHand(s, t) && t.queues == s.queues
    ensures Ledger(t)
  {
    hide QueueOk;
  }

  /** One queue changes. */
  lemma LedgerChanged(s: State, t: State, i: nat, q: QueueState)
    requires Ledger(s) && HandOk(t) && t.blocking == s.blocking && t.capacity == s.capacity
    requires i < |s.queues| && t.queues == s.queues[i := q] && QueueOk(s.blocking, s.capacity, q, HandOf(t) == Some(i))
    requires HandOf(t) == HandOf(s)
          || ((HandOf(s) == None || HandOf(s) == Some(i)) && (HandOf(t) == None || HandOf(t) == Some(i)))
    ensures Ledger(t)
  {
    hide QueueOk;
  }

  lemma LedgerByUse(s: State, t: State, c: Caller)
    requires Ledger(s) && UseGil(s, t, c)
    ensures Ledger(t)
  {
    hide QueueOk, KeptOf, Count;
    var n := |s.queues| - 1;
    if s.phases[c].kind.Stop? {
      var immediate := s.phases[c].kind.immediate;
      ShutDownOk(s.blocking, s.capacity, s.queues[n], HandOf(s) == Some(n), immediate);
      LedgerChanged(s, t, n, ShutDown(s.queues[n], immediate));
    } else {
      EmptyOk(s.blocking, s.capacity);
      forall q: nat | q < |t.queues|
        ensures QueueOk(t.blocking, t.capacity, t.queues[q], HandOf(t) == Some(q))
      {
        assert q < |s.queues| ==> t.queues[q] == s.queues[q];
      }
    }
  }

  lemma EmptyOk(blocking: bool, capacity: nat)
    ensures QueueOk(blocking, capacity, EMPTY_QUEUE, false)
  {
  }

  lemma LedgerByRead(s: State, t: State)
    requires Ledger(s) && ReadStep(s, t)
    ensures Ledger(t)
  {
    hide QueueOk;
    if t == Moved(s, Top) || t == Moved(s, WantGilToFinish) {
      LedgerKept(s, t);
    } else {
      var w := s.worker.value;
      var q := s.queues[w.queue].(calls := s.queues[w.queue].calls + 1);
      var rp :| t == Consumed(s, rp);
      CalledOk(s.blocking, s.capacity, s.queues[w.queue]);
      JudgedOk(s.blocking, s.capacity, q, rp, Refused);
      LedgerChanged(s, t, w.queue, t.queues[w.queue]);
    }
  }

  lemma LedgerByPut(s: State, t: State)
    requires Ledger(s) && PutStep(s, t)
    ensures Ledger(t)
  {
    hide QueueOk;
    var w := s.worker.value;
    var q, rp := s.queues[w.queue], w.hand.value;
    if t == Moved(s, Blocked).(gil := None) {
      LedgerKept(s, t);
    } else {
      if t.queues[w.queue] == Judged(q, rp, Refused) {
        JudgedOk(s.blocking, s.capacity, q, rp, Refused);
      } else if t.queues[w.queue] == Judged(q, rp, Kept) {
        JudgedOk(s.blocking, s.capacity, q, rp, Kept);
      } else {
        JudgedOk(s.blocking, s.capacity, q, rp, Dropped);
      }
      LedgerChanged(s, t, w.queue, t.queues[w.queue]);
    }
  }

  lemma LedgerByFinish(s: State, t: State)
    requires Ledger(s) && FinishStep(s, t)
    ensures Ledger(t)
  {
    hide QueueOk;
    var n := s.worker.value.queue;
    ShutDownOk(s.blocking, s.capacity, s.queues[n], HandOf(s) == Some(n), false);
    LedgerChanged(s, t, n, ShutDown(s.queues[n], false));
  }

  lemma LedgerByOthers(s: State, t: State)
    requires Ledger(s)
    requires || TopStep(s, t) || GilToPutStep(s, t) || GilToLogStep(s, t) || LogStep(s, t)
             || GilToFinishStep(s, t) || EndStep(s, t)
    ensures Ledger(t)
  {
    hide QueueOk, IsFull;
    LedgerKept(s, t);
  }

  lemma LedgerByWorker(s: State, t: State)
    requires Ledger(s) && WorkerStep(s, t)
    ensures Ledger(t)
  {
    hide Ledger, TopStep, ReadStep, GilToPutStep, PutStep, GilToLogStep, LogStep, GilToFinishStep, FinishStep, EndStep;
    if ReadStep(s, t) {
      LedgerByRead(s, t);
    } else if PutStep(s, t) {
      LedgerByPut(s, t);
    } else if FinishStep(s, t) {
      LedgerByFinish(s, t);
    } else {
      LedgerByOthers(s, t);
    }
  }

  lemma LedgerByPython(s: State, t: State, m: Move)
    requires Ledger(s) && Next(s, t, m) && !m.Calling? && !m.Working?
    ensures Ledger(t)
  {
    hide QueueOk;
    if m.Getting? {
      ReadOk(s.blocking, s.capacity, s.queues[m.i], HandOf(s) == Some(m.i));
      LedgerChanged(s, t, m.i, Read(s.queues[m.i]));
    } else {
      LedgerKept(s, t);
    }
  }

  lemma LedgerStep(s: State, t: State, m: Move)
    requires Inv(s) && Ledger(s) && Next(s, t, m)
    ensures Ledger(t)
  {
    hide CallerStep, WorkerStep, UseGil, Launch, Inv, Ledger, SameHand, Advances, SameLogs;
    if m.Calling? {
      CallerEffect(s, t, m.c);
      if UseGil(s, t, m.c) {
        LedgerByUse(s, t, m.c);
      } else {
        if Launch(s, t, m.c) {
          LaunchIsFirst(s, t, m.c);
        }
        LedgerKept(s, t);
      }
    } else if m.Working? {
      LedgerByWorker(s, t);
    } else {
      LedgerByPython(s, t, m);
    }
  }

  /** In every run each packet for which consume() was called is kept, dropped or refused exactly
      once, or still in the worker's hand; a blocking tap drops nothing, a non-blocking one
      never waits, and no queue outgrows its capacity. */
  lemma {:induction false} PacketsAreAccountedFor(b: seq<State>, moves: seq<Move>, i: nat)
    requires Steps(b, moves) && Init(b[0]) && i < |b|
    ensures Ledger(b[i])
  {
    hide Inv, Next, Ledger;
    if i == 0 {
      assert Ledger(b[0]) by { InitLedger(b[0]); }
    } else {
      PacketsAreAccountedFor(b, moves, i - 1);
      InitInv(b[0]);
      StepsKeep(b, moves, i - 1);
      LedgerStep(b[i - 1], b[i], moves[i - 1]);
    }
  }

  lemma InitLedger(s: State)
    requires Init(s)
    ensures Ledger(s)
  {
    EmptyOk(s.blocking, s.capacity);
  }

  /** In every run python code reads the kept packets of each queue in the order in which they
      were given to the tap, from the first on and without a gap, and none is lost on the way. */
  lemma ReadInOrder(b: seq<State>, moves: seq<Move>, i: nat, q: nat)
    requires Steps(b, moves) && Init(b[0]) && i < |b| && q < |b[i].queues|
    ensures
      var queue := b[i].queues[q];
      && queue.read <= KeptOf(queue.given)
      && |queue.given| == |queue.read| + |queue.discarded| + |queue.content|
                          + Count(queue.given, WasDropped) + Count(queue.given, WasRefused)
      && queue.calls == |queue.given| + if HandOf(b[i]) == Some(q) then 1 else 0
  {
    hide Count;
    PacketsAreAccountedFor(b, moves, i);
    var queue := b[i].queues[q];
    assert QueueOk(b[i].blocking, b[i].capacity, queue, HandOf(b[i]) == Some(q));
    FatesCount(queue.given);
    assert queue.read + queue.discarded + queue.content == queue.read + (queue.discarded + queue.content);
  }

  /** The history of a queue is only ever continued. */
  lemma {:induction false} LogsOnlyGrow(b: seq<State>, moves: seq<Move>, i: nat, q: nat)
    requires Steps(b, moves) && i < |b| && q < |b[0].queues|
    ensures q < |b[i].queues| && Continues(b[0].queues[q], b[i].queues[q])
  {
    hide Next;
    if i > 0 {
      LogsOnlyGrow(b, moves, i - 1, q);
      HistoryStep(b[i - 1], b[i], moves[i - 1], q);
    }
  }

  ghost predicate Continues(q: QueueState, q': QueueState) {
    q.given <= q'.given && q.read <= q'.read && q.calls <= q'.calls
  }

  lemma HistoryStep(s: State, t: State, m: Move, q: nat)
    requires Next(s, t, m) && q < |s.queues|
    ensures q < |t.queues| && Continues(s.queues[q], t.queues[q])
  {
    hide CallerStep, WorkerStep;
    if m.Calling? {
      LogByCaller(s, t, m.c, q);
    } else if m.Working? {
      LogByWorker(s, t, q);
    }
  }

  lemma LogByCaller(s: State, t: State, c: Caller, q: nat)
    requires CallerStep(s, t, c) && q < |s.queues|
    ensures q < |t.queues| && Continues(s.queues[q], t.queues[q])
  {
    hide CallerStep, SameLogs, SameHand, Advances, Launches;
    CallerEffect(s, t, c);
  }

  lemma LogByWorker(s: State, t: State, q: nat)
    requires WorkerStep(s, t) && q < |s.queues|
    ensures q < |t.queues| && Continues(s.queues[q], t.queues[q])
  {
    hide PutStep, IsFull;
    if PutStep(s, t) {
      LogByPut(s, t, q);
    } else if TopStep(s, t) || ReadStep(s, t) || GilToPutStep(s, t) {
    } else {
    }
  }

  lemma LogByPut(s: State, t: State, q: nat)
    requires PutStep(s, t) && q < |s.queues|
    ensures q < |t.queues| && Continues(s.queues[q], t.queues[q])
  {
    hide IsFull;
  }
}
