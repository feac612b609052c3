/**
 TaskManager and BackgroundFuture<void> (thread.h): every interleaving of callers of Schedule,
 Wait and IsRunning, and of the destructor, with the background threads that they start.

 Every future owns a notification on the heap and a thread. Destroying a future, as emplace and
 reset do, joins the thread and then frees the notification. The body of a task ends before
 Notify sets the notification, and the thread is still inside Notify after that: joining is
 what keeps it from touching freed memory.
 */
module TaskManager {
  import opened Basics

  /** Where a background thread is. */
  datatype Background =
    | NotStarted
    | Spawned       // about to run the body
    | Body
    | BodyDone      // about to call done.Notify()
    | Leaving       // the notification is set, Notify has not returned
    | Exited

  datatype Future = Future(thread: Background, notified: bool, live: bool)

  type Caller = nat

  datatype Purpose = ToSchedule | ToWait | ToDestroy

  /** Where a caller is. Idle is outside; the destructor has the object to itself, all others hold mutex_. */
  datatype Pc =
    | Idle
    | Waiting(purpose: Purpose)   // task_->Wait()
    | Joining(purpose: Purpose)   // destroying the old future: joining its thread
    | Freeing(purpose: Purpose)   // destroying the old future: freeing its notification
    | Creating                    // constructing the new future: allocating its notification
    | Starting                    // constructing the new future: starting its thread
    | Testing                     // IsRunning: task_.has_value() && !task_->Ready()
    | Leave(returned: Returned)   // about to release mutex_
    | Destroyed                   // the destructor is done

  datatype Returned = FromSchedule | FromWait | FromIsRunning(running: bool)

  datatype Event = BodyStarts(k: nat) | BodyEnds(k: nat)

  /** `mutex` is the caller inside the object; `task` is the future in task_; `log` lists when bodies started and ended. */
  datatype State = State(mutex: Option<Caller>, task: Option<nat>, futures: seq<Future>, callers: map<Caller, Pc>,
                         log: seq<Event>)

  datatype Action =
    | CallSchedule(c: Caller)
    | CallWait(c: Caller)
    | CallIsRunning(c: Caller)
    | CallDestructor(c: Caller)
    | SeeNotified(c: Caller)
    | Join(c: Caller)
    | Free(c: Caller)
    | Create(c: Caller)
    | Start(c: Caller)
    | Test(c: Caller)
    | Return(c: Caller)
    | EnterBody(k: nat)
    | ExitBody(k: nat)
    | SetNotified(k: nat)
    | ExitThread(k: nat)

  function Initial(callers: set<Caller>): State {
    State(None, None, [], map c | c in callers :: Idle, [])
  }

  // ----- Actions

  predicate OfThread(a: Action) { a.EnterBody? || a.ExitBody? || a.SetNotified? || a.ExitThread? }

  predicate HasTask(s: State) { s.task.Some? && s.task.value < |s.futures| }

  predicate ThreadEnabled(s: State, a: Action)
    requires OfThread(a)
  {
    && a.k < |s.futures|
    && var thread := s.futures[a.k].thread;
       match a
       case EnterBody(_) => thread == Spawned
       case ExitBody(_) => thread == Body
       case SetNotified(_) => thread == BodyDone
       case ExitThread(_) => thread == Leaving
  }

  predicate CallerEnabled(s: State, a: Action)
    requires !OfThread(a)
  {
    && a.c in s.callers
    && var pc := s.callers[a.c];
       match a
       case CallSchedule(_) => pc == Idle && s.mutex == None
       case CallWait(_) => pc == Idle && s.mutex == None
       case CallIsRunning(_) => pc == Idle && s.mutex == None
       case CallDestructor(_) => pc == Idle && s.mutex == None
       case SeeNotified(_) => pc.Waiting? && HasTask(s) && s.futures[s.task.value].notified
       case Join(_) => pc.Joining? && HasTask(s) && s.futures[s.task.value].thread == Exited
       case Free(_) => pc.Freeing? && HasTask(s)
       case Create(_) => pc == Creating
       case Start(_) => pc == Starting && HasTask(s)
       case Test(_) => pc == Testing && (s.task.Some? ==> HasTask(s))
       case Return(_) => pc.Leave?
  }

  predicate Enabled(s: State, a: Action) { if OfThread(a) then ThreadEnabled(s, a) else CallerEnabled(s, a) }

  function At(s: State, c: Caller, pc: Pc): State { s.(callers := s.callers[c := pc]) }

  function SetFuture(s: State, k: nat, f: Future): State
    requires k < |s.futures|
  {
    s.(futures := s.futures[k := f])
  }

  function DoThread(s: State, a: Action): State
    requires OfThread(a) && ThreadEnabled(s, a)
  {
    var k, f := a.k, s.futures[a.k];
    match a
    case EnterBody(_) => SetFuture(s, k, f.(thread := Body)).(log := s.log + [BodyStarts(k)])
    case ExitBody(_) => SetFuture(s, k, f.(thread := BodyDone)).(log := s.log + [BodyEnds(k)])
    case SetNotified(_) => SetFuture(s, k, f.(thread := Leaving, notified := true))
    case ExitThread(_) => SetFuture(s, k, f.(thread := Exited))
  }

  /** Where a caller goes when there is no old future any more. */
  function Onward(purpose: Purpose): Pc {
    match purpose
    case ToSchedule => Creating
    case ToWait => Leave(FromWait)
    case ToDestroy => Destroyed
  }

  /** Schedule and Wait wait for an old task if there is one; the destructor only joins. */
  function Begin(s: State, c: Caller, purpose: Purpose): State {
    At(s, c, if s.task == None then Onward(purpose)
             else if purpose == ToDestroy then Joining(purpose) else Waiting(purpose))
      .(mutex := Some(c))
  }

  function DoCaller(s: State, a: Action): State
    requires !OfThread(a) && CallerEnabled(s, a)
  {
    var c, pc := a.c, s.callers[a.c];
    match a
    case CallSchedule(_) => Begin(s, c, ToSchedule)
    case CallWait(_) => Begin(s, c, ToWait)
    case CallIsRunning(_) => At(s, c, Testing).(mutex := Some(c))
    case CallDestructor(_) => Begin(s, c, ToDestroy)
    case SeeNotified(_) => At(s, c, Joining(pc.purpose))
    case Join(_) => At(s, c, Freeing(pc.purpose))
    case Free(_) =>
      var k := s.task.value;
      At(SetFuture(s, k, s.futures[k].(live := false)), c, Onward(pc.purpose))
        .(task := None)
    case Create(_) =>
      At(s, c, Starting).(futures := s.futures + [Future(NotStarted, false, true)], task := Some(|s.futures|))
    case Start(_) =>
      var k := s.task.value;
      At(SetFuture(s, k, s.futures[k].(thread := Spawned)), c, Leave(FromSchedule))
    case Test(_) =>
      At(s, c, Leave(FromIsRunning(s.task.Some? && !s.futures[s.task.value].notified)))
    case Return(_) => At(s, c, Idle).(mutex := None)
  }

  function Do(s: State, a: Action): State
    requires Enabled(s, a)
  {
    if OfThread(a) then DoThread(s, a) else DoCaller(s, a)
  }

  function Run(s: State, run: seq<Action>): Option<State>
    decreases |run|
  {
    if run == [] then Some(s)
    else if Enabled(s, run[0]) then Run(Do(s, run[0]), run[1..])
    else None
  }

  // ----- The invariant

  predicate IsFinished(f: Future) { f == Future(Exited, true, false) }

  /** The future in task_: which states of it the caller inside may find. */
  predicate CurrentInvariant(f: Future, pc: Pc) {
    && f.live
    && (f.notified <==> f.thread == Leaving || f.thread == Exited)
    && (f.thread == NotStarted <==> pc == Starting)
    && (pc.Joining? && pc.purpose != ToDestroy ==> f.notified)
    && (pc.Freeing? ==> f.thread == Exited)
    && pc != Creating && pc != Leave(FromWait) && pc != Destroyed
  }

  /** The pc of the caller that holds mutex_, Idle when there is none. */
  function Insider(s: State): Pc {
    if s.mutex.Some? && s.mutex.value in s.callers then s.callers[s.mutex.value] else Idle
  }

  predicate TaskInvariant(s: State) {
    var n := |s.futures|;
    && (s.task.Some? ==> n > 0 && s.task.value == n - 1 && CurrentInvariant(s.futures[n - 1], Insider(s)))
    && (s.task == None ==>
          var pc := Insider(s);
          pc == Idle || pc == Creating || pc == Testing || pc == Destroyed || (pc.Leave? && pc.returned != FromSchedule))
  }

  predicate FuturesInvariant(s: State) {
    forall k :: 0 <= k < |s.futures| && s.task != Some(k) ==> IsFinished(s.futures[k])
  }

  predicate MutexInvariant(s: State) {
    && (s.mutex.Some? ==> s.mutex.value in s.callers)
    && forall c :: c in s.callers ==> (s.callers[c] != Idle <==> s.mutex == Some(c))
  }

  /** How much of the log a future accounts for. */
  function EventCount(f: Future): nat {
    match f.thread
    case NotStarted => 0
    case Spawned => 0
    case Body => 1
    case _ => 2
  }

  function LogLength(futures: seq<Future>): nat {
    if futures == [] then 0 else 2 * (|futures| - 1) + EventCount(futures[|futures| - 1])
  }

  /** Start and end of task 0, start and end of task 1, and so on. */
  predicate Serial(log: seq<Event>) {
    forall i :: 0 <= i < |log| ==> log[i] == if i % 2 == 0 then BodyStarts(i / 2) else BodyEnds(i / 2)
  }

  ghost predicate Invariant(s: State) {
    MutexInvariant(s) && TaskInvariant(s) && FuturesInvariant(s) && |s.log| == LogLength(s.futures) && Serial(s.log)
  }

  lemma MutexStep(s: State, a: Action)
    requires Invariant(s) && Enabled(s, a)
    ensures MutexInvariant(Do(s, a))
  {
    hide TaskInvariant, FuturesInvariant, LogLength, Serial;
  }

  /** Who acts, the caller inside or the thread of the current future. */
  lemma Actor(s: State, a: Action)
    requires Invariant(s) && Enabled(s, a)
    ensures OfThread(a) ==> s.task == Some(a.k) && a.k == |s.futures| - 1
    ensures !OfThread(a) ==> if s.mutex == None then s.callers[a.c] == Idle else s.mutex == Some(a.c)
  {
    hide LogLength, Serial;
  }

  lemma TaskStep(s: State, a: Action)
    requires Invariant(s) && Enabled(s, a)
    ensures TaskInvariant(Do(s, a))
  {
    hide FuturesInvariant, LogLength, Serial, Do, Enabled;
    Actor(s, a);
    if OfThread(a) { ThreadTaskStep(s, a); } else { CallerTaskStep(s, a); }
  }

  lemma ThreadTaskStep(s: State, a: Action)
    requires MutexInvariant(s) && TaskInvariant(s) && OfThread(a) && Enabled(s, a)
    requires s.task == Some(a.k) && a.k == |s.futures| - 1
    ensures TaskInvariant(Do(s, a))
  {
    hide MutexInvariant;
    assert Insider(Do(s, a)) == Insider(s);
  }

  lemma CallerTaskStep(s: State, a: Action)
    requires MutexInvariant(s) && TaskInvariant(s) && !OfThread(a) && Enabled(s, a)
    requires if s.mutex == None then s.callers[a.c] == Idle else s.mutex == Some(a.c)
    ensures TaskInvariant(Do(s, a))
  {
    hide MutexInvariant, Insider;
    InsiderMoves(s, a);
  }

  lemma InsiderMoves(s: State, a: Action)
    requires MutexInvariant(s) && !OfThread(a) && Enabled(s, a)
    requires if s.mutex == None then s.callers[a.c] == Idle else s.mutex == Some(a.c)
    ensures Insider(s) == s.callers[a.c] && Insider(Do(s, a)) == Do(s, a).callers[a.c]
  {}

  lemma FuturesStep(s: State, a: Action)
    requires Invariant(s) && Enabled(s, a)
    ensures FuturesInvariant(Do(s, a))
  {
    hide LogLength, Serial;
    Actor(s, a);
  }

  lemma LogStep(s: State, a: Action)
    requires Invariant(s) && Enabled(s, a)
    ensures var s' := Do(s, a); |s'.log| == LogLength(s'.futures) && Serial(s'.log)
  {
    hide MutexInvariant, TaskInvariant, FuturesInvariant, LogLength, Serial, Do, Enabled;
    Actor(s, a);
    if OfThread(a) {
      ThreadLogStep(s, a);
    } else {
      InsiderMoves(s, a);
      CallerLogStep(s, a);
    }
  }

  lemma ThreadLogStep(s: State, a: Action)
    requires OfThread(a) && Enabled(s, a) && a.k == |s.futures| - 1
    requires |s.log| == LogLength(s.futures) && Serial(s.log)
    ensures var s' := Do(s, a); |s'.log| == LogLength(s'.futures) && Serial(s'.log)
  {}

  lemma CallerLogStep(s: State, a: Action)
    requires TaskInvariant(s) && FuturesInvariant(s) && !OfThread(a) && Enabled(s, a)
    requires Insider(s) == s.callers[a.c]
    ensures Do(s, a).log == s.log && LogLength(Do(s, a).futures) == LogLength(s.futures)
  {
    hide Insider;
    var n := |s.futures|;
    if a.Create? && n > 0 { assert IsFinished(s.futures[n - 1]); }
  }

  lemma StepKeepsInvariant(s: State, a: Action)
    requires Invariant(s) && Enabled(s, a)
    ensures Invariant(Do(s, a))
  {
    hide MutexInvariant, TaskInvariant, FuturesInvariant, LogLength, Serial, Do, Enabled;
    MutexStep(s, a);
    TaskStep(s, a);
    FuturesStep(s, a);
    LogStep(s, a);
  }

  lemma {:induction false} RunKeepsInvariant(s: State, run: seq<Action>)
    requires Invariant(s) && Run(s, run).Some?
    ensures Invariant(Run(s, run).value)
    decreases |run|
  {
    hide Invariant, Enabled, Do;
    if run != [] {
      StepKeepsInvariant(s, run[0]);
      RunKeepsInvariant(Do(s, run[0]), run[1..]);
    }
  }

  // ----- Every run from the initial state

  ghost predicate Reachable(s: State) {
    exists callers: set<Caller>, run: seq<Action> :: Run(Initial(callers), run) == Some(s)
  }

  lemma ReachableInvariant(s: State)
    requires Reachable(s)
    ensures Invariant(s)
  {
    var callers: set<Caller>, run: seq<Action> :| Run(Initial(callers), run) == Some(s);
    assert Invariant(Initial(callers));
    RunKeepsInvariant(Initial(callers), run);
  }

  /** The bodies of two tasks never overlap: a running body is the one scheduled last, alone. */
  lemma BodiesNeverOverlap(s: State, k: nat)
    requires Reachable(s) && k < |s.futures| && s.futures[k].thread == Body
    ensures k == |s.futures| - 1
    ensures forall l :: 0 <= l < k ==> s.futures[l].thread == Exited
  {
    ReachableInvariant(s);
  }

  /** Tasks run one after the other, in the order in which they were scheduled, each body once. */
  lemma TasksAreSerial(s: State)
    requires Reachable(s)
    ensures Serial(s.log) && |s.log| <= 2 * |s.futures|
    ensures s.futures != [] ==> 2 * (|s.futures| - 1) <= |s.log|
  {
    ReachableInvariant(s);
  }

  /** When Wait releases its lock, every task scheduled so far has run to its end and its thread is gone. */
  lemma WaitMeansFinished(s: State, c: Caller)
    requires Reachable(s) && c in s.callers && s.callers[c] == Leave(FromWait)
    ensures |s.log| == 2 * |s.futures|
    ensures forall k :: 0 <= k < |s.futures| ==> IsFinished(s.futures[k])
  {
    ReachableInvariant(s);
    if s.futures != [] { assert IsFinished(s.futures[|s.futures| - 1]); }
  }

  /** The same when the destructor is done: nothing is left running and nothing is leaked. */
  lemma DestructorFinishes(s: State, c: Caller)
    requires Reachable(s) && c in s.callers && s.callers[c] == Destroyed
    ensures |s.log| == 2 * |s.futures|
    ensures forall k :: 0 <= k < |s.futures| ==> IsFinished(s.futures[k])
  {
    ReachableInvariant(s);
    if s.futures != [] { assert IsFinished(s.futures[|s.futures| - 1]); }
  }

  lemma TestingIsInside(s: State, c: Caller)
    requires MutexInvariant(s) && c in s.callers && s.callers[c] == Testing
    ensures Insider(s) == Testing
  {}

  /** IsRunning says no only when no body is running, and every scheduled one has ended. */
  lemma NotRunningMeansFinished(s: State, c: Caller)
    requires Reachable(s) && Enabled(s, Test(c)) && Do(s, Test(c)).callers[c] == Leave(FromIsRunning(false))
    ensures |s.log| == 2 * |s.futures|
    ensures forall k :: 0 <= k < |s.futures| ==> s.futures[k].thread != Body
  {
    hide Serial, Reachable;
    ReachableInvariant(s);
    TestingIsInside(s, c);
    var n := |s.futures|;
    if s.task == None && n > 0 { assert IsFinished(s.futures[n - 1]); }
  }

  /** IsRunning says yes exactly while a task that was scheduled has not been notified of its end. */
  lemma IsRunningIsExact(s: State, c: Caller)
    requires Reachable(s) && Enabled(s, Test(c))
    ensures var s' := Do(s, Test(c));
      c in s'.callers && s'.callers[c] == Leave(FromIsRunning(exists k :: 0 <= k < |s.futures| && !s.futures[k].notified))
  {
    hide Serial, LogLength, Reachable;
    ReachableInvariant(s);
    TestingIsInside(s, c);
    forall k | 0 <= k < |s.futures| && s.task != Some(k) ensures s.futures[k].notified {
      assert IsFinished(s.futures[k]);
    }
  }

  /** When Schedule is about to release its lock, the last future is there and its thread has been started. */
  lemma ScheduleMeansStarted(s: State, c: Caller)
    requires Reachable(s) && c in s.callers && s.callers[c] == Leave(FromSchedule)
    ensures |s.futures| > 0 && s.task == Some(|s.futures| - 1) && s.futures[|s.futures| - 1].thread != NotStarted
  {
    hide Serial, LogLength, FuturesInvariant, Reachable;
    ReachableInvariant(s);
  }

  /** The future whose notification an action reads or writes. */
  function Touches(s: State, a: Action): Option<nat> {
    match a
    case SetNotified(k) => Some(k)
    case ExitThread(k) => Some(k)
    case SeeNotified(_) => s.task
    case Free(_) => s.task
    case Test(_) => s.task
    case _ => None
  }

  /** No caller and no background thread touches a notification that has been freed. */
  lemma NoUseAfterFree(s: State, a: Action)
    requires Reachable(s) && Enabled(s, a) && Touches(s, a).Some?
    ensures Touches(s, a).value < |s.futures| && s.futures[Touches(s, a).value].live
  {
    ReachableInvariant(s);
    Actor(s, a);
  }

  /** The new future is created only when there is no other: memory is freed before it is replaced. */
  lemma OnlyOneIsLive(s: State, k: nat)
    requires Reachable(s) && k < |s.futures| && s.futures[k].live
    ensures s.task == Some(k) && k == |s.futures| - 1
  {
    ReachableInvariant(s);
  }

  /** Nobody waits for ever: a caller inside can go on, or the thread that it waits for can. */
  lemma NoDeadlock(s: State, c: Caller)
    requires Reachable(s) && s.mutex == Some(c) && c in s.callers && s.callers[c] != Destroyed
    ensures exists a :: Enabled(s, a) && (OfThread(a) ==> s.task == Some(a.k)) && (!OfThread(a) ==> a.c == c)
  {
    hide Serial, LogLength, FuturesInvariant, Reachable;
    ReachableInvariant(s);
    var own := match s.callers[c]
      case Waiting(_) => SeeNotified(c)
      case Joining(_) => Join(c)
      case Freeing(_) => Free(c)
      case Creating => Create(c)
      case Starting => Start(c)
      case Testing => Test(c)
      case _ => Return(c);
    if !Enabled(s, own) {
      var k := s.task.value;
      var thread := match s.futures[k].thread
        case Spawned => EnterBody(k)
        case Body => ExitBody(k)
        case BodyDone => SetNotified(k)
        case _ => ExitThread(k);
      assert Enabled(s, thread) && OfThread(thread);
    }
  }
}
