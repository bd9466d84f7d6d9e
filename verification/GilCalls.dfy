/** What the calls of WorkerBase and the tap achieve: stop() returns without a running worker,
    start() with a new one or without effect, and packets can pass from the worker to python code. */
module GilCalls {
  import opened GilProtocol
  import opened GilQueues
  import opened Packets
  import opened PyTap

  // ---- how calls end ----

  ghost predicate InStop(p: Phase) {
    || ((p.Locked? || p.WantGil? || p.WithGil?) && p.kind.Stop?)
    || p.SettingQuit? || p.Joining?
  }

  ghost predicate InStart(p: Phase) {
    || ((p.Locked? || p.WantGil? || p.WithGil?) && p.kind.Start?)
    || p.Resetting? || p.JoiningOld? || p.Launching?
  }

  /** Told to quit, ended, and nobody can put into its queue any more. */
  ghost predicate IsGone(s: State) {
    s.worker.Some? ==>
      && s.worker.value.quit && s.worker.value.pc == Exited
      && s.worker.value.queue < |s.queues| && s.queues[s.worker.value.queue].shut
  }

  /** In every run: when stop() gives the mutex back there is no worker, or one that was told to quit
      and has ended, with its queue shut down. Nothing else ends a stop(). */
  lemma StopLeavesNoWorker(b: seq<State>, moves: seq<Move>, i: nat, c: Caller)
    requires Steps(b, moves) && Init(b[0]) && i < |moves|
    requires c in b[i].phases && InStop(b[i].phases[c])
    requires c in b[i + 1].phases && !InStop(b[i + 1].phases[c])
    ensures moves[i] == Calling(c) && b[i + 1].phases[c].Leaving? && b[i + 1].worker == b[i].worker
    ensures IsGone(b[i + 1])
  {
    hide Next, Inv, Decide, IsGone;
    InitInv(b[0]);
    StepsKeep(b, moves, i);
    OnlyOwnSteps(b[i], b[i + 1], moves[i], c);
    StopEnds(b[i], b[i + 1], c);
  }

  lemma OnlyOwnSteps(s: State, t: State, m: Move, c: Caller)
    requires Next(s, t, m) && c in s.phases && !s.phases[c].Outside?
    ensures c in t.phases
    ensures t.phases[c] != s.phases[c] ==> m == Calling(c) && CallerStep(s, t, c)
  {
    hide CallerStep, WorkerStep;
    if m.Calling? {
      OwnPhaseOnly(s, t, m.c, c);
    } else if m.Working? {
      QueueCountByWorker(s, t);
    }
  }

  lemma OwnPhaseOnly(s: State, t: State, d: Caller, c: Caller)
    requires CallerStep(s, t, d) && c in s.phases
    ensures c in t.phases && (d != c ==> t.phases[c] == s.phases[c])
  {
    hide Lock, Decide, TakeGil, UseGil, SetQuit, Join, Reset, JoinOld, Launch, Leave;
    if Reset(s, t, d) || JoinOld(s, t, d) || Launch(s, t, d) || Leave(s, t, d) {
      OwnPhaseInStart(s, t, d, c);
    } else if UseGil(s, t, d) || Decide(s, t, d) {
      OwnPhaseInBoth(s, t, d, c);
    } else {
      OwnPhaseInStop(s, t, d, c);
    }
  }

  lemma OwnPhaseInStart(s: State, t: State, d: Caller, c: Caller)
    requires (Reset(s, t, d) || JoinOld(s, t, d) || Launch(s, t, d) || Leave(s, t, d)) && c in s.phases
    ensures c in t.phases && (d != c ==> t.phases[c] == s.phases[c])
  {
  }

  lemma OwnPhaseInBoth(s: State, t: State, d: Caller, c: Caller)
    requires (UseGil(s, t, d) || Decide(s, t, d)) && c in s.phases
    ensures c in t.phases && (d != c ==> t.phases[c] == s.phases[c])
  {
    hide GilProtocol.ShutDown, IsRunning;
  }

  lemma OwnPhaseInStop(s: State, t: State, d: Caller, c: Caller)
    requires (Lock(s, t, d) || TakeGil(s, t, d) || SetQuit(s, t, d) || Join(s, t, d)) && c in s.phases
    ensures c in t.phases && (d != c ==> t.phases[c] == s.phases[c])
  {
  }

  lemma StopEnds(s: State, t: State, c: Caller)
    requires Inv(s) && CallerStep(s, t, c) && InStop(s.phases[c]) && !InStop(t.phases[c])
    ensures t.phases[c].Leaving? && t.worker == s.worker && IsGone(t)
  {
    assert s.mutex == Some(c);
    if Join(s, t, c) {
      assert CallInv(s, s.phases[c]);
    } else if Decide(s, t, c) {
    } else {
    }
  }

  /** In every run: start() ends in one of two ways. It declines before it has touched anything, always
      so while a worker runs, or it leaves a running worker that is not told to quit. */
  lemma StartLaunchesOrDeclines(b: seq<State>, moves: seq<Move>, i: nat, c: Caller)
    requires Steps(b, moves) && Init(b[0]) && i < |moves|
    requires c in b[i].phases && InStart(b[i].phases[c])
    requires c in b[i + 1].phases && b[i + 1].phases[c] != b[i].phases[c]
    ensures b[i].phases[c].Locked? && IsRunning(b[i]) ==> b[i + 1].phases[c].Leaving?
    ensures !InStart(b[i + 1].phases[c]) ==>
      && b[i + 1].phases[c].Leaving? && b[i + 1].queues == b[i].queues
      && if b[i].phases[c].Locked? then b[i + 1].worker == b[i].worker
         else IsRunning(b[i + 1]) && !IsRunning(b[i]) && !b[i + 1].worker.value.quit
  {
    hide Next, Inv;
    InitInv(b[0]);
    StepsKeep(b, moves, i);
    OnlyOwnSteps(b[i], b[i + 1], moves[i], c);
    StartEnds(b[i], b[i + 1], c);
  }

  lemma StartEnds(s: State, t: State, c: Caller)
    requires Inv(s) && CallerStep(s, t, c) && InStart(s.phases[c])
    ensures s.phases[c].Locked? && IsRunning(s) ==> t.phases[c].Leaving?
    ensures !InStart(t.phases[c]) ==>
      && t.phases[c].Leaving? && t.queues == s.queues
      && if s.phases[c].Locked? then t.worker == s.worker
         else IsRunning(t) && !IsRunning(s) && !t.worker.value.quit
  {
    assert s.mutex == Some(c);
    if Launch(s, t, c) {
      assert CallInv(s, s.phases[c]);
    } else if Decide(s, t, c) {
    } else {
    }
  }

  /** Without a running worker start() need not decline; that is up to the source. */
  lemma StartCanGoOn(s: State, c: Caller) returns (t: State)
    requires c in s.phases && s.phases[c].Locked? && s.phases[c].kind.Start? && !IsRunning(s)
    ensures Next(s, t, Calling(c)) && c in t.phases && t.phases[c] == WantGil(Start, s.phases[c].had)
  {
    t := s.(phases := s.phases[c := WantGil(Start, s.phases[c].had)]);
    assert Decide(s, t, c);
  }

  // ---- the GIL of the caller ----

  ghost predicate Had(p: Phase) {
    !p.Outside? && p.had
  }

  lemma HadStays(s: State, t: State, m: Move, c: Caller)
    requires Next(s, t, m) && c in s.phases && !s.phases[c].Outside?
    ensures c in t.phases && (!t.phases[c].Outside? ==> Had(t.phases[c]) == Had(s.phases[c]))
    ensures t.phases[c].Outside? ==> s.phases[c].Leaving? && m == Calling(c) && Leave(s, t, c)
  {
    hide CallerStep, WorkerStep, Leave;
    OnlyOwnSteps(s, t, m, c);
    if t.phases[c] != s.phases[c] {
      HadStaysInCall(s, t, c);
    }
  }

  lemma HadStaysInCall(s: State, t: State, c: Caller)
    requires CallerStep(s, t, c) && c in s.phases && c in t.phases && !s.phases[c].Outside?
    ensures !t.phases[c].Outside? ==> Had(t.phases[c]) == Had(s.phases[c])
    ensures t.phases[c].Outside? ==> s.phases[c].Leaving? && Leave(s, t, c)
  {
    hide GilProtocol.ShutDown, IsRunning;
  }

  lemma {:induction false} HadWhileInside(b: seq<State>, moves: seq<Move>, j: nat, i: nat, c: Caller)
    requires Steps(b, moves) && j < i < |b|
    requires c in b[j].phases && b[j].phases[c].Outside?
    requires forall k | j < k <= i :: c in b[k].phases && !b[k].phases[c].Outside?
    ensures Had(b[i].phases[c]) == (b[j].gil == Some(Call(c)))
  {
    hide Next;
    if j + 1 < i {
      HadWhileInside(b, moves, j, i - 1, c);
      HadStays(b[i - 1], b[i], moves[i - 1], c);
    } else {
      EnterNotes(b[j], b[i], moves[j], c);
    }
  }

  lemma EnterNotes(s: State, t: State, m: Move, c: Caller)
    requires Next(s, t, m) && c in s.phases && s.phases[c].Outside? && c in t.phases && !t.phases[c].Outside?
    ensures Had(t.phases[c]) == (s.gil == Some(Call(c)))
  {
    hide CallerStep, WorkerStep;
    if m.Calling? {
      OwnPhaseOnly(s, t, m.c, c);
      OutsideStays(s, t, c);
    } else if m.Working? {
      QueueCountByWorker(s, t);
    }
  }

  lemma OutsideStays(s: State, t: State, c: Caller)
    requires c in s.phases && s.phases[c].Outside?
    ensures !CallerStep(s, t, c)
  {
    hide GilProtocol.ShutDown, IsRunning, Unlocked;
  }

  /** In every run a caller holds the GIL after a call exactly if it held the GIL when it called. */
  lemma GilIsGivenBack(b: seq<State>, moves: seq<Move>, j: nat, i: nat, c: Caller)
    requires Steps(b, moves) && Init(b[0]) && j < i < |moves|
    requires c in b[j].phases && b[j].phases[c].Outside?
    requires forall k | j < k <= i :: c in b[k].phases && !b[k].phases[c].Outside?
    requires c in b[i + 1].phases && b[i + 1].phases[c].Outside?
    ensures b[i + 1].gil == Some(Call(c)) <==> b[j].gil == Some(Call(c))
  {
    hide Next, LockInv, QueueInv;
    InitInv(b[0]);
    StepsKeep(b, moves, i);
    HadWhileInside(b, moves, j, i, c);
    HadStays(b[i], b[i + 1], moves[i], c);
    NotHeldInside(b[i], c);
  }

  lemma NotHeldInside(s: State, c: Caller)
    requires LockInv(s) && c in s.phases && s.phases[c].Leaving?
    ensures s.gil != Some(Call(c))
  {
  }

  // ---- failures of the worker ----

  /** An exception of put() is stored at one step only, when it was logged, and ends the loop; it is
      taken away only by a query, or together with its worker by start(). */
  lemma ErrorHasReason(s: State, t: State, m: Move)
    requires Next(s, t, m) && s.worker.Some? && t.worker.Some?
    ensures m.Working? && s.worker.value.pc == Logging ==> t.worker.value.error && t.worker.value.pc == WantGilToFinish
    ensures t.worker.value.error && !s.worker.value.error ==> m.Working? && s.worker.value.pc == Logging
    ensures s.worker.value.error && !t.worker.value.error ==>
      && m.Calling? && m.c in s.phases
      && (s.phases[m.c].Launching? || (s.phases[m.c].Locked? && s.phases[m.c].kind.Query?))
  {
    hide CallerStep, WorkerStep;
    if m.Calling? {
      ErrorByCaller(s, t, m.c);
    } else if m.Working? {
      ErrorByWorker(s, t);
    }
  }

  lemma ErrorByCaller(s: State, t: State, c: Caller)
    requires CallerStep(s, t, c) && s.worker.Some? && t.worker.Some?
    ensures t.worker.value.error ==> s.worker.value.error
    ensures s.worker.value.error && !t.worker.value.error ==>
      c in s.phases && (s.phases[c].Launching? || (s.phases[c].Locked? && s.phases[c].kind.Query?))
  {
    hide GilProtocol.ShutDown, IsRunning;
  }

  lemma ErrorByWorker(s: State, t: State)
    requires WorkerStep(s, t) && s.worker.Some? && t.worker.Some?
    ensures s.worker.value.pc == Logging ==> t.worker.value.error && t.worker.value.pc == WantGilToFinish
    ensures t.worker.value.error && !s.worker.value.error ==> s.worker.value.pc == Logging
    ensures s.worker.value.error ==> t.worker.value.error
  {
    hide PutStep, IsFull;
    if PutStep(s, t) {
      ErrorByPut(s, t);
    } else if TopStep(s, t) || ReadStep(s, t) || GilToPutStep(s, t) {
    } else {
    }
  }

  lemma ErrorByPut(s: State, t: State)
    requires PutStep(s, t) && s.worker.Some? && t.worker.Some?
    ensures s.worker.value.pc == Putting && t.worker.value.error == s.worker.value.error
  {
    hide IsFull;
  }

  /** rethrowException() can take a stored exception away, and other queries leave it where it is. */
  lemma QueryCanMove(s: State, c: Caller) returns (asked: State, rethrown: State)
    requires c in s.phases && s.phases[c].Locked? && s.phases[c].kind.Query? && s.worker.Some?
    ensures Next(s, asked, Calling(c)) && asked.worker == s.worker && asked.mutex == None
    ensures Next(s, rethrown, Calling(c)) && rethrown.worker == Some(s.worker.value.(error := false))
    ensures rethrown.mutex == None
  {
    asked := Unlocked(s, c, s.phases[c].had);
    rethrown := asked.(worker := Some(s.worker.value.(error := false)));
    assert Decide(s, asked, c) && Decide(s, rethrown, c);
  }

  // ---- how packets pass ----

  /** From a free GIL python code can take the oldest packet out of a queue, whoever has shut it down. */
  lemma GetCanMove(s: State, q: nat) returns (b: seq<State>)
    requires s.gil == None && q < |s.queues| && s.queues[q].content != []
    ensures Steps(b, [Taking(Python), Getting(q), Releasing]) && b[0] == s
    ensures b[3].gil == None && b[3].worker == s.worker && b[3].phases == s.phases && |b[3].queues| == |s.queues|
    ensures b[3].queues[q].content == s.queues[q].content[1..]
    ensures b[3].queues[q].read == s.queues[q].read + [s.queues[q].content[0]]
    ensures b[3].queues[q].given == s.queues[q].given && b[3].queues[q].shut == s.queues[q].shut
    ensures b[3].capacity == s.capacity && b[3].blocking == s.blocking
  {
    var s1 := s.(gil := Some(Python));
    var old_ := s.queues[q];
    var s2 := s1.(queues := s.queues[q := old_.(content := old_.content[1..], read := old_.read + [old_.content[0]])]);
    var s3 := s2.(gil := None);
    assert PythonTakes(s, s1, Python) && PythonGets(s1, s2, q) && PythonReleases(s2, s3);
    b := [s, s1, s2, s3];
    ThreeSteps(b, [Taking(Python), Getting(q), Releasing]);
  }

  lemma ThreeSteps(b: seq<State>, moves: seq<Move>)
    requires |b| == 4 && |moves| == 3
    requires Next(b[0], b[1], moves[0]) && Next(b[1], b[2], moves[1]) && Next(b[2], b[3], moves[2])
    ensures Steps(b, moves)
  {
    hide Next;
  }

  /** The worker can pass a packet into an open queue with room. */
  lemma PutCanMove(s: State, rp: ReceivedPacket) returns (b: seq<State>)
    requires s.gil == None && s.worker.Some? && s.worker.value.pc == Reading && !s.worker.value.tapShut
    requires s.worker.value.queue < |s.queues|
    requires var q := s.queues[s.worker.value.queue]; !q.shut && (s.capacity > 0 ==> |q.content| < s.capacity)
    ensures Steps(b, [Working, Working, Working]) && b[0] == s
    ensures b[3].gil == None && b[3].worker.Some? && b[3].worker.value.pc == Top && |b[3].queues| == |s.queues|
    ensures
      var q, q' := s.queues[s.worker.value.queue], b[3].queues[s.worker.value.queue];
      q'.content == q.content + [rp] && q'.given == q.given + [Given(rp, Kept)] && q'.calls == q.calls + 1
  {
    var w := s.worker.value;
    var q := s.queues[w.queue];
    var s1 := s.(worker := Some(w.(pc := WantGilToPut, hand := Some(rp))),
                 queues := s.queues[w.queue := q.(calls := q.calls + 1)]);
    var s2 := Moved(s1, Putting).(gil := Some(Work));
    var s3 := Settled(s2, Top, Kept);
    assert s1 == Consumed(s, rp);
    assert ReadStep(s, s1) && GilToPutStep(s1, s2) && PutStep(s2, s3);
    b := [s, s1, s2, s3];
    ThreeSteps(b, [Working, Working, Working]);
  }

  /** A put() that waits for a free slot gets it as soon as one packet was read. */
  lemma BlockedPutGoesOn(s: State) returns (read: seq<State>, put: seq<State>)
    requires s.gil == None && s.worker.Some? && s.worker.value.pc == Blocked && s.worker.value.hand.Some?
    requires s.worker.value.queue < |s.queues|
    requires var q := s.queues[s.worker.value.queue]; !q.shut && |q.content| == s.capacity > 0
    ensures Steps(read, [Taking(Python), Getting(s.worker.value.queue), Releasing]) && read[0] == s
    ensures Steps(put, [Working, Working]) && put[0] == read[3]
    ensures put[2].worker.Some? && put[2].worker.value.pc == Top && |put[2].queues| == |s.queues|
    ensures
      var q, q', rp := s.queues[s.worker.value.queue], put[2].queues[s.worker.value.queue], s.worker.value.hand.value;
      q'.content == q.content[1..] + [rp] && q'.given == q.given + [Given(rp, Kept)]
  {
    var i := s.worker.value.queue;
    read := GetCanMove(s, i);
    var r := read[3];
    var s1 := Moved(r, Putting).(gil := Some(Work));
    var s2 := Settled(s1, Top, Kept);
    assert WorkerAt(r, Blocked) && !IsFull(r, r.queues[i]);
    assert GilToPutStep(r, s1) && PutStep(s1, s2);
    put := [r, s1, s2];
    TwoSteps(put, [Working, Working]);
  }

  lemma TwoSteps(b: seq<State>, moves: seq<Move>)
    requires |b| == 3 && |moves| == 2 && Next(b[0], b[1], moves[0]) && Next(b[1], b[2], moves[1])
    ensures Steps(b, moves)
  {
    hide Next;
  }

  /** A put() into a full queue waits if the tap is blocking, and otherwise drops the packet; into a
      queue that was shut down it refuses the packet, and the tap gives up for good. */
  lemma PutWithoutRoom(s: State) returns (t: State)
    requires s.worker.Some? && s.worker.value.pc == Putting && s.worker.value.hand.Some?
    requires s.worker.value.queue < |s.queues|
    requires var q := s.queues[s.worker.value.queue]; q.shut || (s.capacity > 0 && |q.content| >= s.capacity)
    ensures Next(s, t, Working) && t.gil == None && t.worker.Some? && |t.queues| == |s.queues|
    ensures
      var q, q', rp := s.queues[s.worker.value.queue], t.queues[s.worker.value.queue], s.worker.value.hand.value;
      && q'.content == q.content
      && if !q.shut && s.blocking then
           t.worker.value.pc == Blocked && q'.given == q.given && t.worker.value.hand == Some(rp)
         else
           && t.worker.value.pc == Top && t.worker.value.tapShut == (q.shut || s.worker.value.tapShut)
           && q'.given == q.given + [Given(rp, if q.shut then Refused else Dropped)]
  {
    var q := s.queues[s.worker.value.queue];
    t := if q.shut then NoMorePuts(Settled(s, Top, Refused))
         else if s.blocking then Moved(s, Blocked).(gil := None)
         else Settled(s, Top, Dropped);
    assert PutStep(s, t);
  }

  /** A tap that has given up refuses every packet at once, whoever holds the GIL, and never puts again. */
  lemma GivenUpTap(s: State, rp: ReceivedPacket) returns (t: State)
    requires s.worker.Some? && s.worker.value.pc == Reading && s.worker.value.tapShut
    requires s.worker.value.queue < |s.queues|
    ensures Next(s, t, Working) && t.gil == s.gil && t.worker == Some(s.worker.value.(pc := Top))
    ensures |t.queues| == |s.queues| && t.queues[s.worker.value.queue].given
            == s.queues[s.worker.value.queue].given + [Given(rp, Refused)]
    ensures forall u :: Next(s, u, Working) ==> u.worker.Some? && !InPut(u.worker.value.pc)
  {
    hide WorkerStep, InPut;
    t := Consumed(s, rp);
    ConsumedAtOnce(s, t, rp);
    forall u | Next(s, u, Working)
      ensures u.worker.Some? && !InPut(u.worker.value.pc)
    {
      NeverPutsAgain(s, u);
    }
  }

  lemma ConsumedAtOnce(s: State, t: State, rp: ReceivedPacket)
    requires WorkerAt(s, Reading) && t == Consumed(s, rp)
    ensures WorkerStep(s, t)
  {
    assert ReadStep(s, t);
  }

  lemma NeverPutsAgain(s: State, u: State)
    requires WorkerStep(s, u) && s.worker.Some? && s.worker.value.pc == Reading && s.worker.value.tapShut
    ensures u.worker.Some? && !InPut(u.worker.value.pc)
  {
    hide PutStep;
    assert ReadStep(s, u) by { OnlyReads(s, u); }
  }

  lemma OnlyReads(s: State, u: State)
    requires WorkerStep(s, u) && s.worker.Some? && s.worker.value.pc == Reading
    ensures ReadStep(s, u)
  {
    hide ReadStep, Settled, Consumed, NoMorePuts, IsFull;
  }
}
