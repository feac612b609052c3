/**
 RecursiveMutex (thread.h): every interleaving of threads that lock and unlock in nested fashion.

 A lock or unlock call is a sequence of actions, one for each access to shared memory; the
 loads of the assertions are among them, as in a debug build. The atomic `owner_` is accessed
 with relaxed order, so a load may return an old value: the model keeps all the values ever
 stored (the modification order) and lets a load return any of them that is not older than what
 the thread has already seen. Acquiring the inner mutex makes the thread see what its last
 holder had seen. The theorems about all runs are at the end.
 */
module RecursiveMutex {
  import opened Basics

  /** GetTID: never 0, which stands for no owner. */
  type Tid = t: nat | t != 0 witness 1

  /** Where a thread is inside lock or unlock; Idle is outside of both. */
  datatype Pc =
    | Idle
    | Waiting                // saw another owner, about to call mutex_.lock()
    | Acquired               // holds mutex_, about to read recursion_depth_ for the assertion of lock
    | Checked                // about to store owner_
    | Stored                 // about to set recursion_depth_ to 1
    | Nested                 // saw itself as the owner, about to read recursion_depth_
    | Unlocking              // has loaded owner_ for the assertion of unlock, about to read recursion_depth_
    | Increment(read: int)   // about to write read + 1
    | Decrement(read: int)   // about to write read - 1
    | Clearing               // about to store 0 into owner_
    | Releasing              // about to call mutex_.unlock()

  /** `seen` is the position of the newest store to owner_ known to the thread; `holds` counts its open lock calls. */
  datatype Thread = Thread(pc: Pc, seen: nat, holds: nat)

  /** `owners` is the modification order of owner_; `released` is what the last holder of mutex_ had seen. */
  datatype State = State(owners: seq<nat>, mutex: Option<Tid>, released: nat, depth: int, threads: map<Tid, Thread>)

  datatype Action =
    | LoadOwner(t: Tid, j: nat)
    | Acquire(t: Tid)
    | CheckDepth(t: Tid)
    | StoreOwner(t: Tid)
    | SetDepth(t: Tid)
    | ReadDepth(t: Tid)
    | WriteIncrement(t: Tid)
    | CheckOwner(t: Tid, j: nat)
    | WriteDecrement(t: Tid)
    | ClearOwner(t: Tid)
    | Release(t: Tid)

  function Initial(tids: set<Tid>): State {
    State([0], None, 0, 0, map t | t in tids :: Thread(Idle, 0, 0))
  }

  // ----- Actions

  predicate Enabled(s: State, a: Action) {
    && a.t in s.threads
    && var th := s.threads[a.t];
       match a
       case LoadOwner(_, j) => th.pc == Idle && th.seen <= j < |s.owners|
       case Acquire(_) => th.pc == Waiting && s.mutex == None
       case CheckDepth(_) => th.pc == Acquired
       case StoreOwner(_) => th.pc == Checked
       case SetDepth(_) => th.pc == Stored
       case ReadDepth(_) => th.pc == Nested || th.pc == Unlocking
       case WriteIncrement(_) => th.pc.Increment?
       case CheckOwner(_, j) => th.pc == Idle && th.holds > 0 && th.seen <= j < |s.owners|
       case WriteDecrement(_) => th.pc.Decrement? && th.holds > 0
       case ClearOwner(_) => th.pc == Clearing
       case Release(_) => th.pc == Releasing
  }

  function Put(s: State, t: Tid, th: Thread): State { s.(threads := s.threads[t := th]) }

  function StoreInto(s: State, t: Tid, owner: nat, pc: Pc): State
    requires t in s.threads
  {
    Put(s, t, s.threads[t].(pc := pc, seen := |s.owners|)).(owners := s.owners + [owner])
  }

  function Do(s: State, a: Action): State
    requires Enabled(s, a)
  {
    var t, th := a.t, s.threads[a.t];
    match a
    case LoadOwner(_, j) => Put(s, t, th.(pc := if s.owners[j] == t then Nested else Waiting, seen := j))
    case Acquire(_) =>
      Put(s, t, th.(pc := Acquired, seen := if th.seen < s.released then s.released else th.seen)).(mutex := Some(t))
    case CheckDepth(_) => Put(s, t, th.(pc := Checked))
    case StoreOwner(_) => StoreInto(s, t, t, Stored)
    case SetDepth(_) => Put(s, t, th.(pc := Idle, holds := th.holds + 1)).(depth := 1)
    case ReadDepth(_) => Put(s, t, th.(pc := if th.pc == Nested then Increment(s.depth) else Decrement(s.depth)))
    case WriteIncrement(_) => Put(s, t, th.(pc := Idle, holds := th.holds + 1)).(depth := th.pc.read + 1)
    case CheckOwner(_, j) => Put(s, t, th.(pc := Unlocking, seen := j))
    case WriteDecrement(_) =>
      var d := th.pc.read - 1;
      Put(s, t, th.(pc := if d > 0 then Idle else Clearing, holds := th.holds - 1)).(depth := d)
    case ClearOwner(_) => StoreInto(s, t, 0, Releasing)
    case Release(_) => Put(s, t, th.(pc := Idle)).(mutex := None, released := th.seen)
  }

  /** The state after a run, when every action is enabled in its turn. */
  function Run(s: State, run: seq<Action>): Option<State>
    decreases |run|
  {
    if run == [] then Some(s)
    else if Enabled(s, run[0]) then Run(Do(s, run[0]), run[1..])
    else None
  }

  // ----- The invariant

  /** The thread is between acquiring and releasing mutex_. */
  predicate Inside(th: Thread) { th.pc != Waiting && (th.pc == Idle ==> th.holds > 0) }

  predicate OwnerIsCleared(pc: Pc) { pc == Acquired || pc == Checked || pc == Releasing }

  predicate DepthIsZero(pc: Pc) { OwnerIsCleared(pc) || pc == Stored || pc == Clearing }

  /** What holds of the thread that holds mutex_. */
  predicate HolderInvariant(s: State, t: Tid, th: Thread)
    requires |s.owners| > 0
  {
    && th.seen == |s.owners| - 1
    && s.owners[|s.owners| - 1] == (if OwnerIsCleared(th.pc) then 0 else t)
    && s.depth == th.holds
    && (th.holds == 0 <==> DepthIsZero(th.pc))
    && (th.pc.Increment? || th.pc.Decrement? ==> th.pc.read == s.depth)
  }

  /** A thread outside finds no store of its own id among those it may load. */
  predicate OutsiderInvariant(s: State, t: Tid, th: Thread) {
    && th.seen < |s.owners|
    && th.holds == 0
    && forall j :: th.seen <= j < |s.owners| ==> s.owners[j] != t
  }

  predicate ThreadInvariant(s: State, t: Tid)
    requires |s.owners| > 0 && t in s.threads
  {
    var th := s.threads[t];
    && (Inside(th) <==> s.mutex == Some(t))
    && if Inside(th) then HolderInvariant(s, t, th) else OutsiderInvariant(s, t, th)
  }

  ghost predicate Invariant(s: State) {
    && |s.owners| > 0
    && (s.mutex == None ==> s.released == |s.owners| - 1 && s.owners[|s.owners| - 1] == 0 && s.depth == 0)
    && (s.mutex.Some? ==> s.mutex.value in s.threads)
    && forall t :: t in s.threads ==> ThreadInvariant(s, t)
  }

  /** The actions that read or write recursion_depth_. */
  predicate IsOnDepth(a: Action) {
    a.CheckDepth? || a.SetDepth? || a.ReadDepth? || a.WriteIncrement? || a.WriteDecrement?
  }

  lemma DepthActorKeepsInvariant(s: State, a: Action)
    requires |s.owners| > 0 && Enabled(s, a) && IsOnDepth(a) && ThreadInvariant(s, a.t)
    ensures ThreadInvariant(Do(s, a), a.t)
  {}

  predicate IsLoad(a: Action) { a.LoadOwner? || a.CheckOwner? }

  lemma LoadKeepsInvariant(s: State, a: Action)
    requires |s.owners| > 0 && Enabled(s, a) && IsLoad(a) && ThreadInvariant(s, a.t)
    ensures ThreadInvariant(Do(s, a), a.t)
  {}

  lemma OwnerActorKeepsInvariant(s: State, a: Action)
    requires |s.owners| > 0 && Enabled(s, a) && !IsOnDepth(a) && !IsLoad(a) && ThreadInvariant(s, a.t)
    requires s.mutex == None ==> s.released == |s.owners| - 1 && s.owners[|s.owners| - 1] == 0 && s.depth == 0
    ensures |Do(s, a).owners| > 0 && ThreadInvariant(Do(s, a), a.t)
  {}

  lemma ActorKeepsInvariant(s: State, a: Action)
    requires Invariant(s) && Enabled(s, a)
    ensures ThreadInvariant(Do(s, a), a.t)
  {
    hide Invariant, ThreadInvariant;
    InvariantOf(s, a.t);
    if IsOnDepth(a) {
      DepthActorKeepsInvariant(s, a);
    } else if IsLoad(a) {
      LoadKeepsInvariant(s, a);
    } else {
      OwnerActorKeepsInvariant(s, a);
    }
  }

  lemma InvariantOf(s: State, t: Tid)
    requires Invariant(s) && t in s.threads
    ensures |s.owners| > 0 && ThreadInvariant(s, t)
    ensures s.mutex == None ==> s.released == |s.owners| - 1 && s.owners[|s.owners| - 1] == 0 && s.depth == 0
  {}

  lemma OthersKeepInvariant(s: State, a: Action, u: Tid)
    requires Invariant(s) && Enabled(s, a) && u in s.threads && u != a.t
    ensures ThreadInvariant(Do(s, a), u)
  {
    hide Invariant;
    InvariantOf(s, a.t);
    InvariantOf(s, u);
  }

  lemma StepKeepsInvariant(s: State, a: Action)
    requires Invariant(s) && Enabled(s, a)
    ensures Invariant(Do(s, a))
  {
    hide ThreadInvariant;
    var s' := Do(s, a);
    MutexKeepsInvariant(s, a);
    forall u | u in s'.threads ensures ThreadInvariant(s', u) {
      if u == a.t { ActorKeepsInvariant(s, a); } else { OthersKeepInvariant(s, a, u); }
    }
  }

  lemma MutexKeepsInvariant(s: State, a: Action)
    requires Invariant(s) && Enabled(s, a)
    ensures var s' := Do(s, a);
            && |s'.owners| > 0 && s'.threads.Keys == s.threads.Keys
            && (s'.mutex == None ==> s'.released == |s'.owners| - 1 && s'.owners[|s'.owners| - 1] == 0 && s'.depth == 0)
            && (s'.mutex.Some? ==> s'.mutex.value in s'.threads)
  {
    hide Invariant;
    InvariantOf(s, a.t);
    HolderIsAThread(s);
  }

  lemma HolderIsAThread(s: State)
    requires Invariant(s)
    ensures s.mutex.Some? ==> s.mutex.value in s.threads
  {}

  lemma {:induction false} RunKeepsInvariant(s: State, run: seq<Action>)
    requires Invariant(s) && Run(s, run).Some?
    ensures Invariant(Run(s, run).value)
    decreases |run|
  {
    hide Invariant, Enabled, Do;
    if run != [] {
      StepKeepsInvariant(s, run[0]);
      RunKeepsInvariant(Do(s, run[0]), run[1..]);
    }
  }

  // ----- Every run from the initial state

  ghost predicate Reachable(s: State) {
    exists tids: set<Tid>, run: seq<Action> :: Run(Initial(tids), run) == Some(s)
  }

  lemma ReachableInvariant(s: State)
    requires Reachable(s)
    ensures Invariant(s)
  {
    var tids: set<Tid>, run: seq<Action> :| Run(Initial(tids), run) == Some(s);
    assert Invariant(Initial(tids));
    RunKeepsInvariant(Initial(tids), run);
  }

  /** Only one thread has open lock calls; it holds mutex_, and recursion_depth_ is their number. */
  lemma MutualExclusion(s: State, t: Tid)
    requires Reachable(s) && t in s.threads && s.threads[t].holds > 0
    ensures s.mutex == Some(t) && s.depth == s.threads[t].holds
    ensures forall u :: u in s.threads && u != t ==> s.threads[u].holds == 0
  {
    ReachableInvariant(s);
    hide Invariant;
    InvariantOf(s, t);
    forall u | u in s.threads && u != t ensures s.threads[u].holds == 0 {
      InvariantOf(s, u);
    }
  }

  /** The value last stored into owner_ is 0, or the id of the thread that holds mutex_. */
  lemma OwnerHoldsMutex(s: State)
    requires Reachable(s)
    ensures |s.owners| > 0
    ensures var owner := s.owners[|s.owners| - 1]; owner == 0 || s.mutex == Some(owner)
    ensures s.mutex == None ==> s.owners[|s.owners| - 1] == 0 && s.depth == 0
  {
    ReachableInvariant(s);
    if s.mutex.Some? { assert ThreadInvariant(s, s.mutex.value); }
  }

  /** The test without a lock is exact: whatever value the relaxed load returns, it is the thread's own id exactly
      when the thread already holds the mutex. This is also the check that unlock makes. */
  lemma LoadIsExact(s: State, t: Tid, j: nat)
    requires Reachable(s) && t in s.threads && s.threads[t].pc == Idle && s.threads[t].seen <= j < |s.owners|
    ensures s.owners[j] == t <==> s.threads[t].holds > 0
  {
    ReachableInvariant(s);
    InvariantOf(s, t);
  }

  /** recursion_depth_ is only read or written by the thread that holds mutex_. */
  lemma DepthIsGuarded(s: State, a: Action)
    requires Reachable(s) && Enabled(s, a) && IsOnDepth(a)
    ensures s.mutex == Some(a.t)
  {
    ReachableInvariant(s);
    InvariantOf(s, a.t);
  }

  /** The depth is 0 when lock asserts it. */
  lemma DepthIsZeroOnAcquire(s: State, t: Tid)
    requires Reachable(s) && t in s.threads && s.threads[t].pc == Acquired
    ensures s.depth == 0
  {
    ReachableInvariant(s);
    InvariantOf(s, t);
  }

  /** mutex_ is released only by the unlock that closes the outermost lock call. */
  lemma ReleasedByOutermostUnlock(s: State, a: Action)
    requires Reachable(s) && Enabled(s, a) && s.mutex.Some? && Do(s, a).mutex != s.mutex
    ensures a == Release(s.mutex.value) && s.threads[a.t].holds == 0
  {
    ReachableInvariant(s);
    InvariantOf(s, a.t);
  }

  /** An unlock goes on to release mutex_ exactly when it closes the only open lock call. */
  lemma InnerUnlockKeepsMutex(s: State, t: Tid)
    requires Reachable(s) && Enabled(s, WriteDecrement(t))
    ensures var th := Do(s, WriteDecrement(t)).threads[t];
            if s.threads[t].holds == 1 then th.pc == Clearing else th.pc == Idle && th.holds > 0
  {
    ReachableInvariant(s);
    InvariantOf(s, t);
  }

  /** A thread never waits for itself: the inner mutex is not recursive. */
  lemma NoSelfDeadlock(s: State, t: Tid)
    requires Reachable(s) && t in s.threads && s.threads[t].pc == Waiting
    ensures s.mutex != Some(t)
  {
    ReachableInvariant(s);
    InvariantOf(s, t);
  }

  /** When no call is open the object may be destroyed: owner_ and recursion_depth_ are 0. */
  lemma QuietIsClean(s: State)
    requires Reachable(s) && forall t :: t in s.threads ==> s.threads[t].pc == Idle && s.threads[t].holds == 0
    ensures |s.owners| > 0 && s.owners[|s.owners| - 1] == 0 && s.depth == 0 && s.mutex == None
  {
    ReachableInvariant(s);
    if s.mutex.Some? { InvariantOf(s, s.mutex.value); }
  }

  // ----- Every call ends

  /** At least the number of actions until the call is over. */
  function Distance(pc: Pc): nat {
    match pc
    case Idle => 0
    case Waiting => 5
    case Acquired => 4
    case Checked => 3
    case Stored => 1
    case Nested => 2
    case Increment(_) => 1
    case Unlocking => 4
    case Decrement(_) => 3
    case Clearing => 2
    case Releasing => 1
  }

  /** Every action of a thread inside a call brings the call nearer to its end; those of others leave it as it is. */
  lemma CallsEnd(s: State, a: Action, t: Tid)
    requires Enabled(s, a) && t in s.threads && s.threads[t].pc != Idle
    ensures t in Do(s, a).threads
    ensures var before, now := s.threads[t].pc, Do(s, a).threads[t].pc;
            if a.t == t then Distance(now) < Distance(before) else now == before
  {}

  /** What a thread inside a call does next. */
  function Next(t: Tid, pc: Pc): (a: Action)
    requires pc != Idle
    ensures a.t == t
  {
    match pc
    case Waiting => Acquire(t)
    case Acquired => CheckDepth(t)
    case Checked => StoreOwner(t)
    case Stored => SetDepth(t)
    case Nested => ReadDepth(t)
    case Unlocking => ReadDepth(t)
    case Increment(_) => WriteIncrement(t)
    case Decrement(_) => WriteDecrement(t)
    case Clearing => ClearOwner(t)
    case Releasing => Release(t)
  }

  /** A thread outside of a call may call lock, and unlock exactly when it has an open lock call. */
  lemma CallsCanBegin(s: State, t: Tid)
    requires Reachable(s) && t in s.threads && s.threads[t].pc == Idle
    ensures exists j :: Enabled(s, LoadOwner(t, j))
    ensures (exists j :: Enabled(s, CheckOwner(t, j))) <==> s.mutex == Some(t)
  {
    ReachableInvariant(s);
    hide Invariant;
    InvariantOf(s, t);
    var last := |s.owners| - 1;
    assert Enabled(s, LoadOwner(t, last));
    if s.mutex == Some(t) { assert Enabled(s, CheckOwner(t, last)); }
  }

  /** A thread inside a call can go on, or it waits for another thread that can, or that has an open lock call and
      may close it. */
  lemma NoDeadlock(s: State, t: Tid)
    requires Reachable(s) && t in s.threads && s.threads[t].pc != Idle
    ensures Enabled(s, Next(t, s.threads[t].pc)) <==> s.threads[t].pc != Waiting || s.mutex == None
    ensures s.threads[t].pc == Waiting && s.mutex.Some? ==>
      var u := s.mutex.value;
      u != t && u in s.threads &&
      if s.threads[u].pc == Idle then exists j :: Enabled(s, CheckOwner(u, j)) else Enabled(s, Next(u, s.threads[u].pc))
  {
    ReachableInvariant(s);
    InvariantOf(s, t);
    if s.mutex.Some? && s.threads[t].pc == Waiting {
      var u := s.mutex.value;
      InvariantOf(s, u);
      if s.threads[u].pc == Idle { CallsCanBegin(s, u); }
    }
  }

  // ----- Refinement of a recursive mutex with one atomic step for each call

  datatype Abstract = Free | Held(t: Tid, count: nat)

  /** What the callers can tell. */
  function Abstraction(s: State): Abstract {
    if s.mutex.Some? && s.mutex.value in s.threads && s.threads[s.mutex.value].holds > 0
    then Held(s.mutex.value, s.threads[s.mutex.value].holds)
    else Free
  }

  datatype Event = Lock(t: Tid) | Unlock(t: Tid)

  /** A recursive mutex whose calls are single steps; None for a call that must not happen in this state. */
  function AbstractStep(m: Abstract, e: Event): Option<Abstract> {
    match (m, e)
    case (Free, Lock(t)) => Some(Held(t, 1))
    case (Held(u, n), Lock(t)) => if u == t then Some(Held(t, n + 1)) else None
    case (Free, Unlock(_)) => None
    case (Held(u, n), Unlock(t)) => if u != t || n == 0 then None else Some(if n == 1 then Free else Held(t, n - 1))
  }

  function AbstractRun(m: Abstract, events: seq<Event>): Option<Abstract>
    decreases |events|
  {
    if events == [] then Some(m) else
      var next := AbstractStep(m, events[0]);
      if next.None? then None else AbstractRun(next.value, events[1..])
  }

  /** Where the calls take effect: a lock when it sets or increments the depth, an unlock when it decrements it. */
  function EventsOf(a: Action): seq<Event> {
    match a
    case SetDepth(t) => [Lock(t)]
    case WriteIncrement(t) => [Lock(t)]
    case WriteDecrement(t) => [Unlock(t)]
    case _ => []
  }

  function Events(run: seq<Action>): seq<Event> {
    if run == [] then [] else EventsOf(run[0]) + Events(run[1..])
  }

  lemma StepRefines(s: State, a: Action)
    requires Invariant(s) && Enabled(s, a)
    ensures var m, m' := Abstraction(s), Abstraction(Do(s, a));
            if EventsOf(a) == [] then m' == m else AbstractStep(m, EventsOf(a)[0]) == Some(m')
  {
    hide Invariant;
    InvariantOf(s, a.t);
  }

  lemma {:induction false} RunRefines(s: State, run: seq<Action>)
    requires Invariant(s) && Run(s, run).Some?
    ensures AbstractRun(Abstraction(s), Events(run)) == Some(Abstraction(Run(s, run).value))
    decreases |run|
  {
    hide Invariant, Enabled, Do, Abstraction, AbstractStep, EventsOf;
    if run != [] {
      var a, rest := run[0], run[1..];
      StepKeepsInvariant(s, a);
      StepRefines(s, a);
      RunRefines(Do(s, a), rest);
      var es := EventsOf(a);
      AtMostOne(a);
      if es == [] {
        assert es + Events(rest) == Events(rest);
      } else {
        assert (es + Events(rest))[1..] == Events(rest);
      }
    }
  }

  lemma AtMostOne(a: Action)
    ensures |EventsOf(a)| <= 1
  {}

  /** The calls of every run, in the order in which they take effect, are a run of the atomic recursive mutex. */
  lemma RefinesAtomicMutex(tids: set<Tid>, run: seq<Action>)
    requires Run(Initial(tids), run).Some?
    ensures AbstractRun(Free, Events(run)) == Some(Abstraction(Run(Initial(tids), run).value))
  {
    assert Invariant(Initial(tids));
    RunRefines(Initial(tids), run);
  }
}
