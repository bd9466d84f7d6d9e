/** util::Queue: a bounded blocking queue with two condition variables and a task counter.
    The class holds the locked regions; the transition system below lets any number of
    threads run them in any interleaving, with wait sets, owed notifications and spurious
    wakeups as explicit state. */
module BoundedQueue {
  import opened Packets

  /** What the mutex protects. */
  datatype Shared<T> = Shared(content: seq<T>, capacity: nat, unfinished: nat)

  class Queue<T> {
    var content: seq<T>
    const capacity: nat
    var unfinishedTasks: nat

    constructor (capacity: nat)
      ensures State() == Shared([], capacity, 0)
    {
      content, this.capacity, unfinishedTasks := [], capacity, 0;
    }

    ghost function State(): Shared<T>
      reads this
    {
      Shared(content, capacity, unfinishedTasks)
    }

    /** The region of push() that runs once the wait predicate is true. */
    method PushLocked(item: T)
      requires |content| < capacity
      modifies this
      ensures State() == Pushed(old(State()), item)
    {
      content := content + [item];
      unfinishedTasks := unfinishedTasks + 1;
    }

    /** Full means size equal to the capacity here; no task is counted. */
    method TryPush(item: T) returns (ok: bool)
      modifies this
      ensures ok <==> |old(content)| != capacity
      ensures State() == if ok then TryPushed(old(State()), item) else old(State())
    {
      if |content| == capacity {
        return false;
      }
      content := content + [item];
      return true;
    }

    method PopLocked() returns (item: T)
      requires content != []
      modifies this
      ensures State() == Popped(old(State())) && old(content) == [item] + content
    {
      item := content[0];
      content := content[1..];
    }

    method TryPop() returns (item: Option<T>)
      modifies this
      ensures old(content) == [] ==> item == None && State() == old(State())
      ensures old(content) != [] ==>
        State() == Popped(old(State())) && item.Some? && old(content) == [item.value] + content
    {
      item := None;
      if content != [] {
        item := Some(content[0]);
        content := content[1..];
      }
    }

    /** Without unfinished tasks task_done() throws. */
    method TaskDone() returns (ok: bool, wakeAll: bool)
      modifies this
      ensures ok <==> old(unfinishedTasks) > 0
      ensures State() == if ok then TaskFinished(old(State())) else old(State())
      ensures wakeAll <==> ok && unfinishedTasks == 0
    {
      if unfinishedTasks == 0 {
        return false, false;
      }
      unfinishedTasks := unfinishedTasks - 1;
      return true, unfinishedTasks == 0;
    }
  }

  ghost function Pushed<T>(q: Shared<T>, item: T): Shared<T> {
    q.(content := q.content + [item], unfinished := q.unfinished + 1)
  }

  ghost function TryPushed<T>(q: Shared<T>, item: T): Shared<T> {
    q.(content := q.content + [item])
  }

  ghost function Popped<T>(q: Shared<T>): Shared<T>
    requires q.content != []
  {
    q.(content := q.content[1..])
  }

  ghost function TaskFinished<T>(q: Shared<T>): Shared<T>
    requires q.unfinished > 0
  {
    q.(unfinished := q.unfinished - 1)
  }

  // ---- threads ----

  type Thread = nat

  /** Parked: in the wait set of a condition variable. Woken: out of it, but not yet back in
      the mutex. Owing: out of the locked region with notify_one() still to be called. */
  datatype Phase<T> =
    | Idle
    | PushParked(item: T) | PushWoken(item: T) | OwesNotEmpty
    | PopParked | PopWoken | OwesNotFull
    | JoinParked | JoinWoken

  datatype State<T> = State(
    q: Shared<T>,
    threads: map<Thread, Phase<T>>,
    // history
    pushed: seq<T>, popped: seq<T>, pushes: nat, tasksDone: nat)

  ghost predicate Init<T(!new)>(s: State<T>) {
    && s.q.content == [] && s.q.unfinished == 0
    && (forall t | t in s.threads :: s.threads[t] == Idle)
    && s.pushed == [] && s.popped == [] && s.pushes == 0 && s.tasksDone == 0
  }

  ghost predicate At<T>(s: State<T>, t: Thread, p: Phase<T>) {
    t in s.threads && s.threads[t] == p
  }

  /** push(): takes the mutex for the first time or again after a wakeup, and parks or pushes. */
  ghost predicate PushStep<T>(s: State<T>, s': State<T>, t: Thread, item: T) {
    && (At(s, t, Idle) || At(s, t, PushWoken(item)))
    && s' == if |s.q.content| < s.q.capacity
             then s.(q := Pushed(s.q, item), threads := s.threads[t := OwesNotEmpty],
                     pushed := s.pushed + [item], pushes := s.pushes + 1)
             else s.(threads := s.threads[t := PushParked(item)])
  }

  ghost predicate TryPushStep<T>(s: State<T>, s': State<T>, t: Thread, item: T) {
    && At(s, t, Idle)
    && s' == if |s.q.content| == s.q.capacity then s
             else s.(q := TryPushed(s.q, item), threads := s.threads[t := OwesNotEmpty], pushed := s.pushed + [item])
  }

  ghost predicate PopStep<T>(s: State<T>, s': State<T>, t: Thread) {
    && (At(s, t, Idle) || At(s, t, PopWoken))
    && s' == if s.q.content != []
             then s.(q := Popped(s.q), threads := s.threads[t := OwesNotFull], popped := s.popped + [s.q.content[0]])
             else s.(threads := s.threads[t := PopParked])
  }

  /** notify_one() takes one parked thread out of the wait set, if there is any. */
  ghost predicate NotifiesNotEmpty<T>(threads: map<Thread, Phase<T>>, threads': map<Thread, Phase<T>>) {
    || (threads' == threads && forall w | w in threads :: !threads[w].PopParked?)
    || (exists w :: w in threads && threads[w].PopParked? && threads' == threads[w := PopWoken])
  }

  ghost predicate NotifiesNotFull<T>(threads: map<Thread, Phase<T>>, threads': map<Thread, Phase<T>>) {
    || (threads' == threads && forall w | w in threads :: !threads[w].PushParked?)
    || (exists w :: w in threads && threads[w].PushParked? && threads' == threads[w := PushWoken(threads[w].item)])
  }

  ghost predicate NotEmptyStep<T>(s: State<T>, s': State<T>, t: Thread) {
    && At(s, t, OwesNotEmpty) && s' == s.(threads := s'.threads)
    && NotifiesNotEmpty(s.threads[t := Idle], s'.threads)
  }

  ghost predicate NotFullStep<T>(s: State<T>, s': State<T>, t: Thread) {
    && At(s, t, OwesNotFull) && s' == s.(threads := s'.threads)
    && NotifiesNotFull(s.threads[t := Idle], s'.threads)
  }

  /** try_pop() notifies while it still holds the mutex, also when it popped nothing. */
  ghost predicate TryPopStep<T>(s: State<T>, s': State<T>, t: Thread) {
    && At(s, t, Idle) && NotifiesNotFull(s.threads, s'.threads)
    && s' == (if s.q.content == [] then s
              else s.(q := Popped(s.q), popped := s.popped + [s.q.content[0]])).(threads := s'.threads)
  }

  ghost predicate TaskDoneStep<T>(s: State<T>, s': State<T>, t: Thread) {
    && At(s, t, Idle) && s.q.unfinished > 0
    && s' == s.(q := TaskFinished(s.q), tasksDone := s.tasksDone + 1,
                threads := if s.q.unfinished == 1 then WakeJoins(s.threads) else s.threads)
  }

  ghost function WakeJoins<T>(threads: map<Thread, Phase<T>>): map<Thread, Phase<T>> {
    map t | t in threads :: if threads[t].JoinParked? then JoinWoken else threads[t]
  }

  ghost predicate JoinStep<T>(s: State<T>, s': State<T>, t: Thread) {
    && (At(s, t, Idle) || At(s, t, JoinWoken))
    && s' == s.(threads := s.threads[t := if s.q.unfinished == 0 then Idle else JoinParked])
  }

  ghost predicate SpuriousWakeup<T>(s: State<T>, s': State<T>, t: Thread) {
    && t in s.threads
    && match s.threads[t]
       case PushParked(item) => s' == s.(threads := s.threads[t := PushWoken(item)])
       case PopParked => s' == s.(threads := s.threads[t := PopWoken])
       case JoinParked => s' == s.(threads := s.threads[t := JoinWoken])
       case _ => false
  }

  datatype Move<T> =
    | Push(item: T) | TryPush(item: T) | Pop | TryPop | NotifyNotEmpty | NotifyNotFull | TaskDone | Join | Spurious

  ghost predicate Step<T>(s: State<T>, s': State<T>, t: Thread, m: Move<T>) {
    match m
    case Push(item) => PushStep(s, s', t, item)
    case TryPush(item) => TryPushStep(s, s', t, item)
    case Pop => PopStep(s, s', t)
    case TryPop => TryPopStep(s, s', t)
    case NotifyNotEmpty => NotEmptyStep(s, s', t)
    case NotifyNotFull => NotFullStep(s, s', t)
    case TaskDone => TaskDoneStep(s, s', t)
    case Join => JoinStep(s, s', t)
    case Spurious => SpuriousWakeup(s, s', t)
  }

  ghost predicate Behavior<T(!new)>(b: seq<State<T>>, moves: seq<(Thread, Move<T>)>) {
    && |b| == |moves| + 1 && Init(b[0])
    && forall i: nat | i < |moves| :: Step(b[i], b[i + 1], moves[i].0, moves[i].1)
  }

  // ---- conservation ----

  ghost predicate Conserved<T>(s: State<T>) {
    && s.pushed == s.popped + s.q.content
    && |s.q.content| <= s.q.capacity
    && s.q.unfinished + s.tasksDone == s.pushes
  }

  lemma StepConserves<T(!new)>(s: State<T>, s': State<T>, t: Thread, m: Move<T>)
    requires Conserved(s) && Step(s, s', t, m)
    ensures Conserved(s') && s'.q.capacity == s.q.capacity
  {
    if s.q.content != [] {
      assert s.q.content == [s.q.content[0]] + s.q.content[1..];
    }
  }

  // ---- no lost wakeup ----

  ghost predicate IsPopParked<T>(p: Phase<T>) { p.PopParked? }
  ghost predicate IsPopWoken<T>(p: Phase<T>) { p.PopWoken? }
  ghost predicate IsOwingNotEmpty<T>(p: Phase<T>) { p.OwesNotEmpty? }
  ghost predicate IsPushParked<T>(p: Phase<T>) { p.PushParked? }
  ghost predicate IsPushWoken<T>(p: Phase<T>) { p.PushWoken? }
  ghost predicate IsOwingNotFull<T>(p: Phase<T>) { p.OwesNotFull? }

  ghost function Members<T>(threads: map<Thread, Phase<T>>, phase: Phase<T> -> bool): set<Thread> {
    set t | t in threads && phase(threads[t])
  }

  /** Number of threads in a phase. */
  ghost function In<T>(threads: map<Thread, Phase<T>>, phase: Phase<T> -> bool): nat {
    |Members(threads, phase)|
  }

  ghost function Bit(b: bool): nat { if b then 1 else 0 }

  lemma InAfterChange<T>(threads: map<Thread, Phase<T>>, t: Thread, p: Phase<T>, phase: Phase<T> -> bool)
    requires t in threads
    ensures In(threads[t := p], phase) + Bit(phase(threads[t])) == In(threads, phase) + Bit(phase(p))
  {
    var others := Members(threads, phase) - {t};
    assert Members(threads, phase) == if phase(threads[t]) then others + {t} else others;
    assert Members(threads[t := p], phase) == if phase(p) then others + {t} else others;
  }

  lemma InZeroIff<T>(threads: map<Thread, Phase<T>>, phase: Phase<T> -> bool)
    ensures In(threads, phase) == 0 <==> forall t | t in threads :: !phase(threads[t])
  {
    if t :| t in threads && phase(threads[t]) {
      assert t in Members(threads, phase);
    }
  }

  /** The thread counts of both condition variables. */
  datatype Tally = Tally(
    popParked: nat, popWoken: nat, owesNotEmpty: nat, pushParked: nat, pushWoken: nat, owesNotFull: nat)

  ghost function TallyOf<T>(threads: map<Thread, Phase<T>>): Tally {
    Tally(In(threads, IsPopParked), In(threads, IsPopWoken), In(threads, IsOwingNotEmpty),
          In(threads, IsPushParked), In(threads, IsPushWoken), In(threads, IsOwingNotFull))
  }

  ghost predicate Moved<T>(c: Tally, c': Tally, p: Phase<T>, p': Phase<T>) {
    && c'.popParked + Bit(p.PopParked?) == c.popParked + Bit(p'.PopParked?)
    && c'.popWoken + Bit(p.PopWoken?) == c.popWoken + Bit(p'.PopWoken?)
    && c'.owesNotEmpty + Bit(p.OwesNotEmpty?) == c.owesNotEmpty + Bit(p'.OwesNotEmpty?)
    && c'.pushParked + Bit(p.PushParked?) == c.pushParked + Bit(p'.PushParked?)
    && c'.pushWoken + Bit(p.PushWoken?) == c.pushWoken + Bit(p'.PushWoken?)
    && c'.owesNotFull + Bit(p.OwesNotFull?) == c.owesNotFull + Bit(p'.OwesNotFull?)
  }

  lemma TallyAfterChange<T>(threads: map<Thread, Phase<T>>, t: Thread, p: Phase<T>)
    requires t in threads
    ensures Moved(TallyOf(threads), TallyOf(threads[t := p]), threads[t], p)
  {
    InAfterChange(threads, t, p, IsPopParked);
    InAfterChange(threads, t, p, IsPopWoken);
    InAfterChange(threads, t, p, IsOwingNotEmpty);
    InAfterChange(threads, t, p, IsPushParked);
    InAfterChange(threads, t, p, IsPushWoken);
    InAfterChange(threads, t, p, IsOwingNotFull);
  }

  /** While a consumer is parked, every item is spoken for by a woken consumer or by a
      notification still owed; likewise for parked producers and free slots. */
  ghost predicate Covered(items: nat, capacity: nat, c: Tally) {
    && items <= capacity
    && (c.popParked > 0 ==> items <= c.popWoken + c.owesNotEmpty)
    && (c.pushParked > 0 ==> capacity - items <= c.pushWoken + c.owesNotFull)
  }

  /** Joining threads are parked only while tasks are unfinished. */
  ghost predicate JoinsCovered<T>(s: State<T>) {
    forall t | t in s.threads && s.threads[t].JoinParked? :: s.q.unfinished > 0
  }

  ghost predicate NoLostWakeup<T>(s: State<T>) {
    Covered(|s.q.content|, s.q.capacity, TallyOf(s.threads)) && JoinsCovered(s)
  }

  /** What notify_one() does to the counts: a parked thread becomes a woken one, or there was none. */
  lemma NotEmptyTally<T>(threads: map<Thread, Phase<T>>, threads': map<Thread, Phase<T>>)
    requires NotifiesNotEmpty(threads, threads')
    ensures
      var c := TallyOf(threads);
      TallyOf(threads') == if c.popParked == 0 then c else c.(popParked := c.popParked - 1, popWoken := c.popWoken + 1)
    ensures forall t | t in threads' && threads'[t].JoinParked? :: t in threads && threads[t].JoinParked?
  {
    InZeroIff(threads, IsPopParked);
    if w :| w in threads && threads[w].PopParked? && threads' == threads[w := PopWoken] {
      TallyAfterChange(threads, w, PopWoken);
      assert IsPopParked(threads[w]);
    }
  }

  lemma NotFullTally<T>(threads: map<Thread, Phase<T>>, threads': map<Thread, Phase<T>>)
    requires NotifiesNotFull(threads, threads')
    ensures
      var c := TallyOf(threads);
      TallyOf(threads')
      == if c.pushParked == 0 then c else c.(pushParked := c.pushParked - 1, pushWoken := c.pushWoken + 1)
    ensures forall t | t in threads' && threads'[t].JoinParked? :: t in threads && threads[t].JoinParked?
  {
    InZeroIff(threads, IsPushParked);
    if w :| w in threads && threads[w].PushParked? && threads' == threads[w := PushWoken(threads[w].item)] {
      TallyAfterChange(threads, w, PushWoken(threads[w].item));
      assert IsPushParked(threads[w]);
    }
  }

  lemma StepKeepsCovered<T(!new)>(s: State<T>, s': State<T>, t: Thread, m: Move<T>)
    requires Covered(|s.q.content|, s.q.capacity, TallyOf(s.threads)) && Step(s, s', t, m)
    ensures Covered(|s'.q.content|, s'.q.capacity, TallyOf(s'.threads))
  {
    hide TallyOf, NotifiesNotEmpty, NotifiesNotFull, WakeJoins;
    match m
    case TryPop => NotFullTally(s.threads, s'.threads);
    case NotifyNotEmpty =>
      TallyAfterChange(s.threads, t, Idle);
      NotEmptyTally(s.threads[t := Idle], s'.threads);
    case NotifyNotFull =>
      TallyAfterChange(s.threads, t, Idle);
      NotFullTally(s.threads[t := Idle], s'.threads);
    case TaskDone => JoinsTally(s.threads);
    case _ => OwnMoveKeepsCovered(s, s', t, m);
  }

  /** Moves that change the phase of their own thread only. */
  lemma OwnMoveKeepsCovered<T(!new)>(s: State<T>, s': State<T>, t: Thread, m: Move<T>)
    requires m.Push? || m.TryPush? || m.Pop? || m.Join? || m.Spurious?
    requires Covered(|s.q.content|, s.q.capacity, TallyOf(s.threads)) && Step(s, s', t, m)
    ensures Covered(|s'.q.content|, s'.q.capacity, TallyOf(s'.threads))
  {
    hide TallyOf;
    TallyAfterChange(s.threads, t, s'.threads[t]);
    assert s'.threads == s.threads[t := s'.threads[t]];
  }

  lemma StepKeepsJoins<T(!new)>(s: State<T>, s': State<T>, t: Thread, m: Move<T>)
    requires JoinsCovered(s) && Step(s, s', t, m)
    ensures JoinsCovered(s')
  {
  }

  lemma JoinsTally<T>(threads: map<Thread, Phase<T>>)
    ensures TallyOf(WakeJoins(threads)) == TallyOf(threads)
  {
    SameIn(threads, IsPopParked);
    SameIn(threads, IsPopWoken);
    SameIn(threads, IsOwingNotEmpty);
    SameIn(threads, IsPushParked);
    SameIn(threads, IsPushWoken);
    SameIn(threads, IsOwingNotFull);
  }

  lemma SameIn<T>(threads: map<Thread, Phase<T>>, phase: Phase<T> -> bool)
    requires !phase(JoinParked) && !phase(JoinWoken)
    ensures In(WakeJoins(threads), phase) == In(threads, phase)
  {
    assert Members(WakeJoins(threads), phase) == Members(threads, phase);
  }

  /** In every interleaving: pushed items are the popped ones followed by the content, in
      order; the size never exceeds the capacity; the task counter is exact (try_push() is
      not counted); and no wakeup is lost. */
  lemma {:induction false} QueueInvariant<T(!new)>(b: seq<State<T>>, moves: seq<(Thread, Move<T>)>, i: nat)
    requires Behavior(b, moves) && i < |b|
    ensures Conserved(b[i]) && NoLostWakeup(b[i]) && b[i].q.capacity == b[0].q.capacity
  {
    if i == 0 {
      InZeroIff(b[0].threads, IsPopParked);
      InZeroIff(b[0].threads, IsPushParked);
    } else {
      QueueInvariant(b, moves, i - 1);
      StepConserves(b[i - 1], b[i], moves[i - 1].0, moves[i - 1].1);
      StepKeepsCovered(b[i - 1], b[i], moves[i - 1].0, moves[i - 1].1);
      StepKeepsJoins(b[i - 1], b[i], moves[i - 1].0, moves[i - 1].1);
    }
  }

  /** With room for at least one item, producers and consumers are never both parked
      with nobody on the way to resolve it. */
  lemma NeverAllParked<T(!new)>(b: seq<State<T>>, moves: seq<(Thread, Move<T>)>, i: nat)
    requires Behavior(b, moves) && i < |b| && b[0].q.capacity > 0
    requires
      var c := TallyOf(b[i].threads);
      c.popWoken == c.owesNotEmpty == c.pushWoken == c.owesNotFull == 0
    ensures !(TallyOf(b[i].threads).popParked > 0 && TallyOf(b[i].threads).pushParked > 0)
    ensures TallyOf(b[i].threads).popParked > 0 ==> b[i].q.content == []
    ensures TallyOf(b[i].threads).pushParked > 0 ==> |b[i].q.content| == b[i].q.capacity
  {
    QueueInvariant(b, moves, i);
  }

  /** A parked consumer with items in the queue: somebody else is about to take an item or
      still owes the notification, so the wakeup is on its way. */
  lemma WakeupIsOnItsWay<T(!new)>(b: seq<State<T>>, moves: seq<(Thread, Move<T>)>, i: nat, t: Thread)
    requires Behavior(b, moves) && i < |b| && At(b[i], t, PopParked) && b[i].q.content != []
    ensures exists u :: u in b[i].threads && (b[i].threads[u].PopWoken? || b[i].threads[u].OwesNotEmpty?)
  {
    QueueInvariant(b, moves, i);
    var threads := b[i].threads;
    assert IsPopParked(threads[t]);
    InZeroIff(threads, IsPopParked);
    InZeroIff(threads, IsPopWoken);
    InZeroIff(threads, IsOwingNotEmpty);
    if In(threads, IsPopWoken) > 0 {
      var u :| u in threads && IsPopWoken(threads[u]);
    } else {
      var u :| u in threads && IsOwingNotEmpty(threads[u]);
    }
  }

  /** join() returns at a step that leaves the thread idle: exactly then, every completed
      push() has been answered by a successful task_done(). */
  lemma JoinReturnsWhenDone<T(!new)>(b: seq<State<T>>, moves: seq<(Thread, Move<T>)>, i: nat)
    requires Behavior(b, moves) && i < |moves| && moves[i].1.Join?
    ensures At(b[i + 1], moves[i].0, Idle) <==> b[i].pushes == b[i].tasksDone
  {
    QueueInvariant(b, moves, i);
  }

  // ---- what the operations do to the history ----

  /** In every interleaving the calls act on the queue as if there were only its history: a push or
      try_push adds its item exactly while fewer than capacity items are pushed and not popped, a pop
      or try_pop takes the oldest item pushed and not popped yet, exactly if there is one, and
      nothing else adds or takes items. */
  lemma ActsByHistory<T(!new)>(b: seq<State<T>>, moves: seq<(Thread, Move<T>)>, i: nat)
    requires Behavior(b, moves) && i < |moves|
    ensures
      var s, s', m := b[i], b[i + 1], moves[i].1;
      && |s.popped| <= |s.pushed|
      && s'.pushed == s.pushed + (if m.Push? || m.TryPush? then
                                    if |s.pushed| < |s.popped| + b[0].q.capacity then [m.item] else []
                                  else [])
      && s'.popped == s.popped + (if (m.Pop? || m.TryPop?) && |s.popped| < |s.pushed| then [s.pushed[|s.popped|]]
                                  else [])
  {
    QueueInvariant(b, moves, i);
    hide Covered, JoinsCovered, Conserved;
    assert Conserved(b[i]);
    HistoryStep(b[i], b[i + 1], moves[i].0, moves[i].1);
  }

  lemma HistoryStep<T>(s: State<T>, s': State<T>, t: Thread, m: Move<T>)
    requires Conserved(s) && Step(s, s', t, m)
    ensures |s.popped| <= |s.pushed|
    ensures s'.pushed == s.pushed + (if m.Push? || m.TryPush? then
                                       if |s.pushed| < |s.popped| + s.q.capacity then [m.item] else []
                                     else [])
    ensures s'.popped == s.popped + (if (m.Pop? || m.TryPop?) && |s.popped| < |s.pushed| then [s.pushed[|s.popped|]]
                                     else [])
  {
    assert s.q.content != [] ==> s.pushed[|s.popped|] == s.q.content[0];
  }

  /** Which step a thread can take: between calls any, but task_done() only with tasks unfinished; a
      woken thread its own again; a thread that owes a notification that one; and a parked thread
      none but waking up by itself. */
  ghost predicate CanTake<T>(p: Phase<T>, m: Move<T>, unfinished: nat) {
    match p
    case Idle =>
      (!m.NotifyNotEmpty? && !m.NotifyNotFull? && !m.Spurious? && (m.TaskDone? ==> unfinished > 0))
    case PushWoken(item) => m == Move.Push(item)
    case PopWoken => m.Pop?
    case JoinWoken => m.Join?
    case OwesNotEmpty => m.NotifyNotEmpty?
    case OwesNotFull => m.NotifyNotFull?
    case _ => m.Spurious?
  }

  lemma CanTakeIff<T(!new)>(s: State<T>, t: Thread, m: Move<T>)
    requires t in s.threads
    ensures CanTake(s.threads[t], m, s.q.unfinished) <==> exists s' :: Step(s, s', t, m)
  {
    if CanTake(s.threads[t], m, s.q.unfinished) {
      var s' := Taken(s, t, m);
      assert Step(s, s', t, m);
    }
  }

  lemma Taken<T(!new)>(s: State<T>, t: Thread, m: Move<T>) returns (s': State<T>)
    requires t in s.threads && CanTake(s.threads[t], m, s.q.unfinished)
    ensures Step(s, s', t, m)
  {
    match m
    case Push(item) =>
      s' := if |s.q.content| < s.q.capacity
            then s.(q := Pushed(s.q, item), threads := s.threads[t := OwesNotEmpty],
                    pushed := s.pushed + [item], pushes := s.pushes + 1)
            else s.(threads := s.threads[t := PushParked(item)]);
    case TryPush(item) =>
      s' := if |s.q.content| == s.q.capacity then s
            else s.(q := TryPushed(s.q, item), threads := s.threads[t := OwesNotEmpty], pushed := s.pushed + [item]);
    case Pop =>
      s' := if s.q.content != []
            then s.(q := Popped(s.q), threads := s.threads[t := OwesNotFull], popped := s.popped + [s.q.content[0]])
            else s.(threads := s.threads[t := PopParked]);
    case TryPop =>
      var threads := NotifiedNotFull(s.threads);
      s' := (if s.q.content == [] then s
             else s.(q := Popped(s.q), popped := s.popped + [s.q.content[0]])).(threads := threads);
    case NotifyNotEmpty =>
      var threads := NotifiedNotEmpty(s.threads[t := Idle]);
      s' := s.(threads := threads);
    case NotifyNotFull =>
      var threads := NotifiedNotFull(s.threads[t := Idle]);
      s' := s.(threads := threads);
    case TaskDone =>
      s' := s.(q := TaskFinished(s.q), tasksDone := s.tasksDone + 1,
               threads := if s.q.unfinished == 1 then WakeJoins(s.threads) else s.threads);
    case Join =>
      s' := s.(threads := s.threads[t := if s.q.unfinished == 0 then Idle else JoinParked]);
    case Spurious =>
      s' := s.(threads := s.threads[t := match s.threads[t]
                                         case PushParked(item) => PushWoken(item)
                                         case PopParked => PopWoken
                                         case _ => JoinWoken]);
  }

  lemma NotifiedNotFull<T>(threads: map<Thread, Phase<T>>) returns (threads': map<Thread, Phase<T>>)
    ensures NotifiesNotFull(threads, threads')
  {
    threads' := threads;
    if w :| w in threads && threads[w].PushParked? {
      threads' := threads[w := PushWoken(threads[w].item)];
    }
  }

  lemma NotifiedNotEmpty<T>(threads: map<Thread, Phase<T>>) returns (threads': map<Thread, Phase<T>>)
    ensures NotifiesNotEmpty(threads, threads')
  {
    threads' := threads;
    if w :| w in threads && threads[w].PopParked? {
      threads' := threads[w := PopWoken];
    }
  }
}
