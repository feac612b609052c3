/**
 ProcessMutex and FileLockManager (process_mutex.cc, POSIX branch): every interleaving of the
 threads of one process that lock, unlock, rename, create and destroy ProcessMutex objects.

 fcntl locks belong to the process: closing any descriptor of a file drops the lock on it.
 FileLockManager therefore keeps at most one descriptor for a file name. What the system
 decides (whether open, fcntl and write succeed, and which descriptor open returns) is part
 of the action.
 */
module ProcessMutex {
  import opened Basics

  type Obj = nat
  type Tid = nat
  type Fd = nat

  /** An object: its mutex_ (`holder`), locked_ and filename_. */
  datatype Object = Object(filename: string, locked: bool, holder: Option<Tid>)

  /** An entry of fdmap_; `owner` is the object whose Lock made it. */
  datatype Entry = Entry(fd: Fd, owner: Obj)

  /** Where a thread is; the object's mutex_ is held everywhere but in Idle. `value` is what the call will return: UnLock
      always true, and a Lock that releases its lock again false. */
  datatype Pc =
    | Idle
    | LockTest(o: Obj, write: bool)
    | LockWait(o: Obj, write: bool)             // about to acquire the manager's mutex
    | Check(o: Obj, write: bool)
    | Open(o: Obj, write: bool)
    | Fcntl(o: Obj, write: bool, fd: Fd)
    | CloseFailed(o: Obj, write: bool, fd: Fd)
    | Insert(o: Obj, write: bool, fd: Fd)
    | LeaveLock(o: Obj, write: bool, ok: bool)  // about to release the manager's mutex
    | Write(o: Obj)
    | UnlockTest(o: Obj)
    | UnlockWait(o: Obj, value: bool)           // UnLockInternal: about to acquire the manager's mutex
    | Extract(o: Obj, value: bool)
    | Close(o: Obj, fd: Fd, value: bool)
    | LeaveUnlock(o: Obj, value: bool)          // about to release the manager's mutex
    | SetLocked(o: Obj, result: bool, value: bool)
    | Leave(o: Obj, value: bool)                // about to release mutex_ and to return

  /** `manager` is the holder of the manager's mutex; `fds` are the open descriptors of lock files and `kernel` the
      files whose fcntl lock the process holds. */
  datatype State = State(objects: map<Obj, Object>, threads: map<Tid, Pc>, manager: Option<Tid>,
                         fdmap: map<string, Entry>, fds: map<Fd, string>, kernel: set<string>)

  datatype Action =
    | New(o: Obj, filename: string)
    | SetFilename(o: Obj, filename: string)
    | Destroy(o: Obj)
    | CallLock(t: Tid, o: Obj, write: bool)
    | CallUnLock(t: Tid, o: Obj)
    | Step(t: Tid)
    | AcquireManager(t: Tid)
    | OpenResult(t: Tid, result: Option<Fd>)
    | FcntlResult(t: Tid, granted: bool)
    | WriteResult(t: Tid, ok: bool)

  function Initial(tids: set<Tid>): State {
    State(map[], map t | t in tids :: Idle, None, map[], map[], {})
  }

  // ----- Actions

  predicate OnObject(a: Action) { a.New? || a.SetFilename? || a.Destroy? }

  predicate ObjectEnabled(s: State, a: Action)
    requires OnObject(a)
  {
    if a.New? then a.o !in s.objects
    else a.o in s.objects && s.objects[a.o].holder == None && !s.objects[a.o].locked
  }

  predicate ThreadEnabled(s: State, a: Action)
    requires !OnObject(a)
  {
    && a.t in s.threads
    && var pc := s.threads[a.t];
    && (pc != Idle ==> pc.o in s.objects)
    && match a
       case CallLock(_, o, _) => pc == Idle && o in s.objects && s.objects[o].holder == None
       case CallUnLock(_, o) => pc == Idle && o in s.objects && s.objects[o].holder == None
       case AcquireManager(_) => (pc.LockWait? || pc.UnlockWait?) && s.manager == None
       case OpenResult(_, r) => pc.Open? && (r.Some? ==> r.value !in s.fds)
       case FcntlResult(_, _) => pc.Fcntl?
       case WriteResult(_, _) => pc.Write?
       case Step(_) => !(pc == Idle || pc.LockWait? || pc.UnlockWait? || pc.Open? || pc.Fcntl? || pc.Write?)
  }

  predicate Enabled(s: State, a: Action) { if OnObject(a) then ObjectEnabled(s, a) else ThreadEnabled(s, a) }

  function At(s: State, t: Tid, pc: Pc): State { s.(threads := s.threads[t := pc]) }

  function WithObject(s: State, o: Obj, obj: Object): State { s.(objects := s.objects[o := obj]) }

  /** close(): the descriptor is gone, and with it any fcntl lock of the process on its file. */
  function CloseFd(s: State, fd: Fd): State {
    s.(fds := s.fds - {fd}, kernel := if fd in s.fds then s.kernel - {s.fds[fd]} else s.kernel)
  }

  function DoObject(s: State, a: Action): State
    requires OnObject(a) && ObjectEnabled(s, a)
  {
    match a
    case New(o, f) => WithObject(s, o, Object(f, false, None))
    case SetFilename(o, f) => WithObject(s, o, s.objects[o].(filename := f))
    case Destroy(o) => s.(objects := s.objects - {o})
  }

  function Enter(s: State, t: Tid, o: Obj, pc: Pc): State
    requires o in s.objects
  {
    WithObject(At(s, t, pc), o, s.objects[o].(holder := Some(t)))
  }

  /** The steps that depend on nothing outside of the process. */
  function DoStep(s: State, t: Tid, pc: Pc): State
    requires pc != Idle && pc.o in s.objects
  {
    var obj := s.objects[pc.o];
    var f := obj.filename;
    match pc
    case LockTest(o, write) => At(s, t, if obj.locked then Leave(o, false) else LockWait(o, write))
    case Check(o, write) =>
      At(s, t, if f == "" || f in s.fdmap then LeaveLock(o, write, false) else Open(o, write))
    case CloseFailed(o, write, fd) => CloseFd(At(s, t, LeaveLock(o, write, false)), fd)
    case Insert(o, write, fd) => At(s, t, LeaveLock(o, write, true)).(fdmap := s.fdmap[f := Entry(fd, o)])
    case LeaveLock(o, write, ok) => At(s, t, if ok && write then Write(o) else SetLocked(o, ok, ok)).(manager := None)
    case UnlockTest(o) => At(s, t, if obj.locked then UnlockWait(o, true) else Leave(o, true))
    case Extract(o, value) =>
      if f in s.fdmap then At(s, t, Close(o, s.fdmap[f].fd, value)).(fdmap := s.fdmap - {f})
      else At(s, t, LeaveUnlock(o, value))
    case Close(o, fd, value) => CloseFd(At(s, t, LeaveUnlock(o, value)), fd)
    case LeaveUnlock(o, value) => At(s, t, SetLocked(o, false, value)).(manager := None)
    case SetLocked(o, result, value) => WithObject(At(s, t, Leave(o, value)), o, obj.(locked := result))
    case Leave(o, _) => WithObject(At(s, t, Idle), o, obj.(holder := None))
    case _ => s
  }

  function DoThread(s: State, a: Action): State
    requires !OnObject(a) && ThreadEnabled(s, a)
  {
    var t, pc := a.t, s.threads[a.t];
    match a
    case CallLock(_, o, write) => Enter(s, t, o, LockTest(o, write))
    case CallUnLock(_, o) => Enter(s, t, o, UnlockTest(o))
    case AcquireManager(_) =>
      At(s, t, if pc.LockWait? then Check(pc.o, pc.write) else Extract(pc.o, pc.value)).(manager := Some(t))
    case OpenResult(_, r) =>
      if r == None then At(s, t, LeaveLock(pc.o, pc.write, false))
      else At(s, t, Fcntl(pc.o, pc.write, r.value)).(fds := s.fds[r.value := s.objects[pc.o].filename])
    case FcntlResult(_, granted) =>
      if granted then At(s, t, Insert(pc.o, pc.write, pc.fd)).(kernel := s.kernel + {s.objects[pc.o].filename})
      else At(s, t, CloseFailed(pc.o, pc.write, pc.fd))
    case WriteResult(_, ok) => At(s, t, if ok then SetLocked(pc.o, true, true) else UnlockWait(pc.o, false))
    case Step(_) => DoStep(s, t, pc)
  }

  function Do(s: State, a: Action): State
    requires Enabled(s, a)
  {
    if OnObject(a) then DoObject(s, a) else DoThread(s, a)
  }

  function Run(s: State, run: seq<Action>): Option<State>
    decreases |run|
  {
    if run == [] then Some(s)
    else if Enabled(s, run[0]) then Run(Do(s, run[0]), run[1..])
    else None
  }

  // ----- The invariant

  predicate InManager(pc: Pc) {
    pc.Check? || pc.Open? || pc.Fcntl? || pc.CloseFailed? || pc.Insert? || pc.LeaveLock? ||
    pc.Extract? || pc.Close? || pc.LeaveUnlock?
  }

  /** Whether the object has the file lock, for a thread in state pc inside of it. */
  predicate HasLock(obj: Object, pc: Pc) {
    match pc
    case LeaveLock(_, _, ok) => ok
    case SetLocked(_, result, _) => result
    case Write(_) => true
    case UnlockWait(_, _) => true
    case Extract(_, _) => true
    case LockTest(_, _) => obj.locked
    case UnlockTest(_) => obj.locked
    case Leave(_, _) => obj.locked
    case _ => false
  }

  /** The object has the file lock: locked_, unless a Lock or UnLock is just on its way. */
  predicate Owns(s: State, o: Obj)
    requires o in s.objects
  {
    var obj := s.objects[o];
    if obj.holder == None then obj.locked
    else obj.holder.value in s.threads && HasLock(obj, s.threads[obj.holder.value])
  }

  /** A thread inside an object holds its mutex_; a thread inside the manager holds the manager's. */
  predicate ThreadOk(s: State, t: Tid)
    requires t in s.threads
  {
    var pc := s.threads[t];
    && (InManager(pc) <==> s.manager == Some(t))
    && (pc != Idle ==> pc.o in s.objects && s.objects[pc.o].holder == Some(t))
  }

  predicate ObjectOk(s: State, o: Obj)
    requires o in s.objects
  {
    var obj := s.objects[o];
    obj.holder.Some? ==>
      obj.holder.value in s.threads && s.threads[obj.holder.value] != Idle && s.threads[obj.holder.value].o == o
  }

  /** An object that has the file lock has the entry of its file name. */
  predicate OwnerOk(s: State, o: Obj)
    requires o in s.objects
  {
    var f := s.objects[o].filename;
    Owns(s, o) ==> f in s.fdmap && s.fdmap[f].owner == o
  }

  /** An entry belongs to an object that has the lock, its descriptor is open, and the kernel lock is held. */
  predicate EntryOk(s: State, f: string)
    requires f in s.fdmap
  {
    var Entry(fd, o) := s.fdmap[f];
    && o in s.objects && s.objects[o].filename == f && Owns(s, o)
    && fd in s.fds && s.fds[fd] == f && f in s.kernel
  }

  /** The descriptor that is not in fdmap_: just opened, or about to be closed. */
  function InFlight(pc: Pc): Option<Fd> {
    if pc.Fcntl? || pc.CloseFailed? || pc.Insert? || pc.Close? then Some(pc.fd) else None
  }

  function ManagerPc(s: State): Pc {
    if s.manager.Some? && s.manager.value in s.threads then s.threads[s.manager.value] else Idle
  }

  /** Every descriptor is in fdmap_ or in flight. */
  predicate FdOk(s: State, fd: Fd)
    requires fd in s.fds
  {
    var f := s.fds[fd];
    (f in s.fdmap && s.fdmap[f].fd == fd) || InFlight(ManagerPc(s)) == Some(fd)
  }

  /** A descriptor in flight is of a file that is not in fdmap_. */
  predicate ManagerOk(s: State) {
    var pc := ManagerPc(s);
    && (s.manager.Some? ==> s.manager.value in s.threads && InManager(pc))
    && (InFlight(pc).Some? || pc.Open? ==> pc.o in s.objects && s.objects[pc.o].filename !in s.fdmap)
    && (InFlight(pc).Some? ==> pc.fd in s.fds && s.fds[pc.fd] == s.objects[pc.o].filename)
    && (pc.Insert? ==> s.objects[pc.o].filename in s.kernel)
  }

  ghost predicate Invariant(s: State) {
    && (forall t :: t in s.threads ==> ThreadOk(s, t))
    && (forall o :: o in s.objects ==> ObjectOk(s, o) && OwnerOk(s, o))
    && (forall f :: f in s.fdmap ==> EntryOk(s, f))
    && (forall fd :: fd in s.fds ==> FdOk(s, fd))
    && ManagerOk(s)
  }

  // ----- Every action keeps the invariant

  /** The object that an action is about. */
  function Target(s: State, a: Action): Obj
    requires Enabled(s, a)
  {
    if OnObject(a) || a.CallLock? || a.CallUnLock? then a.o else s.threads[a.t].o
  }

  /** What an action of a thread leaves as it is. */
  lemma Frame(s: State, a: Action)
    requires !OnObject(a) && Enabled(s, a) && ThreadOk(s, a.t)
    ensures var s', t, o := Do(s, a), a.t, Target(s, a);
      && s'.threads.Keys == s.threads.Keys && s'.objects.Keys == s.objects.Keys && o in s.objects
      && (s'.manager == s.manager
          || (s.manager == None && s'.manager == Some(t)) || (s.manager == Some(t) && s'.manager == None))
      && (s'.objects[o].holder == None || s'.objects[o].holder == Some(t))
      && (s.objects[o].holder == None || s.objects[o].holder == Some(t))
      && s'.objects[o].filename == s.objects[o].filename
  {
    hide InManager, DoStep;
    if a.Step? { StepFrame(s, a.t, s.threads[a.t]); }
  }

  lemma StepFrame(s: State, t: Tid, pc: Pc)
    requires t in s.threads && pc == s.threads[t] && ThreadEnabled(s, Step(t)) && ThreadOk(s, t)
    ensures var s', o := DoStep(s, t, pc), pc.o;
      && s'.threads.Keys == s.threads.Keys && s'.objects.Keys == s.objects.Keys
      && (s'.manager == s.manager || (s.manager == Some(t) && s'.manager == None))
      && (s'.objects[o].holder == None || s'.objects[o].holder == Some(t))
      && s'.objects[o].filename == s.objects[o].filename
  {}

  lemma FrameThread(s: State, a: Action, u: Tid)
    requires !OnObject(a) && Enabled(s, a) && u in s.threads && u != a.t
    ensures var s' := Do(s, a); u in s'.threads && s'.threads[u] == s.threads[u]
  {
    hide DoStep;
    if a.Step? { StepFrameThread(s, a.t, s.threads[a.t], u); }
  }

  lemma StepFrameThread(s: State, t: Tid, pc: Pc, u: Tid)
    requires pc != Idle && pc.o in s.objects && u in s.threads && u != t
    ensures var s' := DoStep(s, t, pc); u in s'.threads && s'.threads[u] == s.threads[u]
  {}

  lemma FrameObject(s: State, a: Action, o: Obj)
    requires Enabled(s, a) && o in s.objects && o != Target(s, a)
    ensures var s' := Do(s, a); o in s'.objects && s'.objects[o] == s.objects[o]
  {
    hide DoStep;
    if a.Step? { StepFrameObject(s, a.t, s.threads[a.t], o); }
  }

  lemma StepFrameObject(s: State, t: Tid, pc: Pc, o: Obj)
    requires pc != Idle && pc.o in s.objects && o in s.objects && o != pc.o
    ensures var s' := DoStep(s, t, pc); o in s'.objects && s'.objects[o] == s.objects[o]
  {}

  lemma ActorStep(s: State, a: Action)
    requires !OnObject(a) && Enabled(s, a) && ThreadOk(s, a.t)
    ensures var s' := Do(s, a); a.t in s'.threads && ThreadOk(s', a.t)
  {
    hide DoStep;
    if a.Step? { StepActorStep(s, a.t, s.threads[a.t]); }
  }

  lemma StepActorStep(s: State, t: Tid, pc: Pc)
    requires t in s.threads && pc == s.threads[t] && ThreadEnabled(s, Step(t)) && ThreadOk(s, t)
    ensures var s' := DoStep(s, t, pc); t in s'.threads && ThreadOk(s', t)
  {}

  lemma OtherThreadStep(s: State, a: Action, u: Tid)
    requires !OnObject(a) && Enabled(s, a) && ThreadOk(s, a.t) && u in s.threads && u != a.t && ThreadOk(s, u)
    ensures var s' := Do(s, a); u in s'.threads && ThreadOk(s', u)
  {
    hide Do, InManager, Enabled;
    Frame(s, a);
    FrameThread(s, a, u);
    var pc := s.threads[u];
    if pc != Idle && pc.o != Target(s, a) { FrameObject(s, a, pc.o); }
  }

  lemma ThreadStep(s: State, a: Action, u: Tid)
    requires Enabled(s, a) && u in s.threads && ThreadOk(s, u)
    requires !OnObject(a) ==> ThreadOk(s, a.t)
    ensures u in Do(s, a).threads && ThreadOk(Do(s, a), u)
  {
    hide DoThread, ThreadEnabled, InManager;
    if !OnObject(a) {
      if u == a.t { ActorStep(s, a); } else { OtherThreadStep(s, a, u); }
    }
  }

  lemma TargetObjectStep(s: State, a: Action)
    requires Enabled(s, a) && Target(s, a) in Do(s, a).objects
    requires !OnObject(a) ==> ThreadOk(s, a.t)
    ensures ObjectOk(Do(s, a), Target(s, a))
  {
    hide InManager, DoStep;
    if a.Step? { StepTargetObject(s, a.t, s.threads[a.t]); }
  }

  lemma StepTargetObject(s: State, t: Tid, pc: Pc)
    requires t in s.threads && pc != Idle && pc.o in s.objects && s.objects[pc.o].holder == Some(t)
    ensures var s' := DoStep(s, t, pc);
      pc == s.threads[t] && pc.o in s'.objects ==> ObjectOk(s', pc.o)
  {}

  lemma OtherObjectStep(s: State, a: Action, o: Obj)
    requires Enabled(s, a) && o in s.objects && o != Target(s, a) && ObjectOk(s, o)
    requires !OnObject(a) ==> ThreadOk(s, a.t)
    ensures o in Do(s, a).objects && ObjectOk(Do(s, a), o)
  {
    hide DoThread, InManager;
    FrameObject(s, a, o);
    var holder := s.objects[o].holder;
    if !OnObject(a) && holder.Some? && holder.value != a.t { FrameThread(s, a, holder.value); }
  }

  /** Only the target's file name and lock may change. */
  lemma OthersKeepLock(s: State, a: Action, o: Obj)
    requires Enabled(s, a) && o in s.objects && o != Target(s, a) && ObjectOk(s, o)
    requires !OnObject(a) ==> ThreadOk(s, a.t)
    ensures o in Do(s, a).objects && Do(s, a).objects[o] == s.objects[o] && Owns(Do(s, a), o) == Owns(s, o)
  {
    hide DoThread, HasLock, InManager;
    FrameObject(s, a, o);
    var holder := s.objects[o].holder;
    if !OnObject(a) && holder.Some? && holder.value != a.t { FrameThread(s, a, holder.value); }
  }

  predicate IsInsert(s: State, a: Action)
    requires Enabled(s, a)
  {
    a.Step? && s.threads[a.t].Insert?
  }

  predicate IsExtract(s: State, a: Action)
    requires Enabled(s, a)
  {
    a.Step? && s.threads[a.t].Extract?
  }

  /** The target gets the lock with its entry and loses it with its entry. */
  lemma TargetLock(s: State, a: Action)
    requires Enabled(s, a) && !OnObject(a)
    requires ThreadOk(s, a.t) && Target(s, a) in s.objects && ObjectOk(s, Target(s, a))
    ensures var s', o := Do(s, a), Target(s, a);
      && o in s'.objects && s'.objects[o].filename == s.objects[o].filename
      && (IsInsert(s, a) ==> !Owns(s, o) && Owns(s', o))
      && (IsExtract(s, a) ==> Owns(s, o) && (s.objects[o].filename in s.fdmap ==> !Owns(s', o)))
      && (!IsInsert(s, a) && !IsExtract(s, a) ==> Owns(s', o) == Owns(s, o))
  {
    hide InManager, DoStep;
    var pc := s.threads[a.t];
    if a.Step? && pc != Idle { StepTargetLock(s, a.t, pc); }
  }

  lemma StepTargetLock(s: State, t: Tid, pc: Pc)
    requires t in s.threads && pc == s.threads[t] && pc != Idle && pc.o in s.objects
    requires s.objects[pc.o].holder == Some(t) && ThreadEnabled(s, Step(t))
    ensures var s', o := DoStep(s, t, pc), pc.o;
      && o in s'.objects && s'.objects[o].filename == s.objects[o].filename
      && (pc.Insert? ==> !Owns(s, o) && Owns(s', o))
      && (pc.Extract? ==> Owns(s, o) && (s.objects[o].filename in s.fdmap ==> !Owns(s', o)))
      && (!pc.Insert? && !pc.Extract? ==> Owns(s', o) == Owns(s, o))
  {
    hide InManager;
  }

  lemma Local(s: State, a: Action)
    requires Invariant(s) && Enabled(s, a)
    ensures ManagerOk(s)
    ensures !OnObject(a) ==>
      var o, pc := Target(s, a), s.threads[a.t];
      ThreadOk(s, a.t) && o in s.objects && ObjectOk(s, o) && OwnerOk(s, o) && (InManager(pc) ==> ManagerPc(s) == pc)
  {
    hide DoThread, ThreadOk, ObjectOk, OwnerOk, EntryOk, FdOk, ManagerOk;
    if !OnObject(a) { assert ThreadOk(s, a.t); LocalThread(s, a); }
  }

  lemma LocalThread(s: State, a: Action)
    requires Enabled(s, a) && !OnObject(a) && ThreadOk(s, a.t)
    ensures Target(s, a) in s.objects && (InManager(s.threads[a.t]) ==> ManagerPc(s) == s.threads[a.t])
  {}

  /** What becomes of fdmap_. */
  lemma FdmapEffect(s: State, a: Action)
    requires Enabled(s, a)
    ensures OnObject(a) ==> Do(s, a).fdmap == s.fdmap
    ensures !OnObject(a) && Target(s, a) in s.objects ==>
      var f, pc := s.objects[Target(s, a)].filename, s.threads[a.t];
      Do(s, a).fdmap ==
        if IsInsert(s, a) then s.fdmap[f := Entry(pc.fd, Target(s, a))]
        else if IsExtract(s, a) then s.fdmap - {f}
        else s.fdmap
  {}

  lemma OwnerStep(s: State, a: Action, o: Obj)
    requires Invariant(s) && Enabled(s, a) && o in Do(s, a).objects
    ensures OwnerOk(Do(s, a), o)
  {
    hide Invariant, Do, Enabled, ThreadOk, ObjectOk, Owns;
    Local(s, a);
    FdmapEffect(s, a);
    if !OnObject(a) { TargetLock(s, a); }
    if o != Target(s, a) {
      OldObject(s, a, o);
      OthersKeepLock(s, a, o);
    } else if OnObject(a) {
      NewHasNoLock(s, a);
    }
  }

  lemma OldObject(s: State, a: Action, o: Obj)
    requires Invariant(s) && Enabled(s, a) && o in Do(s, a).objects && o != Target(s, a)
    ensures o in s.objects && ObjectOk(s, o) && OwnerOk(s, o)
  {
    hide DoStep, ObjectOk, OwnerOk, InManager;
    Local(s, a);
    if !OnObject(a) { Frame(s, a); }
  }

  lemma NewHasNoLock(s: State, a: Action)
    requires Enabled(s, a) && OnObject(a)
    ensures a.o in s.objects ==> !Owns(s, a.o)
    ensures a.o in Do(s, a).objects ==> !Owns(Do(s, a), a.o)
  {}

  /** What becomes of the descriptors. */
  lemma FdsEffect(s: State, a: Action)
    requires Enabled(s, a)
    ensures OnObject(a) ==> Do(s, a).fds == s.fds && Do(s, a).kernel == s.kernel
    ensures !OnObject(a) && Target(s, a) in s.objects ==>
      var s', f, pc := Do(s, a), s.objects[Target(s, a)].filename, s.threads[a.t];
      if a.OpenResult? && a.result.Some? then s'.fds == s.fds[a.result.value := f] && s'.kernel == s.kernel
      else if a.FcntlResult? then s'.fds == s.fds && s'.kernel == if a.granted then s.kernel + {f} else s.kernel
      else if a.Step? && (pc.CloseFailed? || pc.Close?) then
        s'.fds == s.fds - {pc.fd} && s'.kernel == if pc.fd in s.fds then s.kernel - {s.fds[pc.fd]} else s.kernel
      else s'.fds == s.fds && s'.kernel == s.kernel
  {}

  lemma EntryKeepsOwner(s: State, a: Action, f: string)
    requires Invariant(s) && Enabled(s, a) && f in Do(s, a).fdmap
    ensures var s' := Do(s, a); var o := s'.fdmap[f].owner;
      o in s'.objects && s'.objects[o].filename == f && Owns(s', o)
  {
    hide Invariant, Do, Enabled, ThreadOk, ObjectOk, Owns;
    Local(s, a);
    FdmapEffect(s, a);
    if !OnObject(a) { TargetLock(s, a); }
    if f in s.fdmap {
      OldEntry(s, f);
      var o := s.fdmap[f].owner;
      if o != Target(s, a) {
        OthersKeepLock(s, a, o);
      } else if OnObject(a) {
        NewHasNoLock(s, a);
      }
    }
  }

  lemma OldEntry(s: State, f: string)
    requires Invariant(s) && f in s.fdmap
    ensures EntryOk(s, f) && ObjectOk(s, s.fdmap[f].owner)
  {
    hide ThreadOk, ObjectOk, OwnerOk, FdOk, ManagerOk;
  }

  lemma EntryKeepsDescriptor(s: State, a: Action, f: string)
    requires Invariant(s) && Enabled(s, a) && f in Do(s, a).fdmap
    ensures var s' := Do(s, a); var fd := s'.fdmap[f].fd; fd in s'.fds && s'.fds[fd] == f && f in s'.kernel
  {
    hide Invariant, Do, ThreadOk, ObjectOk, OwnerOk, Owns;
    Local(s, a);
    FdmapEffect(s, a);
    FdsEffect(s, a);
    if f in s.fdmap { OldEntry(s, f); }
  }

  lemma EntryStep(s: State, a: Action, f: string)
    requires Invariant(s) && Enabled(s, a) && f in Do(s, a).fdmap
    ensures EntryOk(Do(s, a), f)
  {
    hide Invariant, Do, Enabled, Owns;
    EntryKeepsOwner(s, a, f);
    EntryKeepsDescriptor(s, a, f);
  }

  /** The pc of the thread inside the manager after an action. */
  lemma ManagerPcEffect(s: State, a: Action)
    requires Invariant(s) && Enabled(s, a)
    ensures OnObject(a) ==> ManagerPc(Do(s, a)) == ManagerPc(s)
    ensures !OnObject(a) && s.manager.Some? && s.manager.value != a.t ==> ManagerPc(Do(s, a)) == ManagerPc(s)
  {
    hide Invariant, ThreadOk, ObjectOk, OwnerOk, DoStep;
    Local(s, a);
    if !OnObject(a) {
      ActorFrame(s, a);
      if s.manager.Some? && s.manager.value != a.t && s.manager.value in s.threads { FrameThread(s, a, s.manager.value); }
    }
  }

  lemma ActorFrame(s: State, a: Action)
    requires !OnObject(a) && Enabled(s, a) && ThreadOk(s, a.t)
    ensures s.manager.Some? && s.manager.value != a.t ==> Do(s, a).manager == s.manager
  {
    Frame(s, a);
  }

  lemma FdStep(s: State, a: Action, fd: Fd)
    requires Invariant(s) && Enabled(s, a) && fd in Do(s, a).fds
    ensures FdOk(Do(s, a), fd)
  {
    hide Invariant, ObjectOk, OwnerOk, Owns;
    Local(s, a);
    FdmapEffect(s, a);
    FdsEffect(s, a);
    ManagerPcEffect(s, a);
    if fd in s.fds { OldFd(s, fd); }
  }

  lemma OldFd(s: State, fd: Fd)
    requires Invariant(s) && fd in s.fds
    ensures FdOk(s, fd)
  {}

  /** The thread inside the manager has its object's mutex_, so nobody renames or destroys the object. */
  lemma ManagersObject(s: State)
    requires Invariant(s) && ManagerPc(s) != Idle
    ensures var pc := ManagerPc(s); pc.o in s.objects && s.objects[pc.o].holder == s.manager
  {
    hide ObjectOk, OwnerOk, EntryOk, FdOk;
    assert ThreadOk(s, s.manager.value);
  }

  lemma ManagerStepByOther(s: State, a: Action)
    requires Invariant(s) && Enabled(s, a) && s.manager.Some?
    requires OnObject(a) || s.manager.value != a.t
    ensures ManagerOk(Do(s, a))
  {
    hide Invariant, Do, DoThread, ObjectOk, OwnerOk, Owns;
    Local(s, a);
    FdmapEffect(s, a);
    FdsEffect(s, a);
    ManagerPcEffect(s, a);
    ManagersObject(s);
    var pc := ManagerPc(s);
    if OnObject(a) { ManagerAndObjects(s, a); } else { ActorFrame(s, a); }
    assert pc.o != Target(s, a) by {
      if pc.o == Target(s, a) && !OnObject(a) { Frame(s, a); }
    }
    FrameObject(s, a, pc.o);
  }

  lemma ManagerAndObjects(s: State, a: Action)
    requires OnObject(a) && Enabled(s, a)
    ensures Do(s, a).manager == s.manager && Do(s, a).threads == s.threads
  {}

  lemma ManagerStepByActor(s: State, a: Action)
    requires Invariant(s) && Enabled(s, a) && !OnObject(a) && (s.manager.Some? ==> s.manager.value == a.t)
    ensures ManagerOk(Do(s, a))
  {
    hide Invariant, DoStep, Owns, ObjectOk;
    Local(s, a);
    if a.Step? {
      var f := s.objects[s.threads[a.t].o].filename;
      if f in s.fdmap { OldEntry(s, f); }
      ManagerStepByStep(s, a);
    }
  }

  lemma ManagerStepByStep(s: State, a: Action)
    requires Enabled(s, a) && a.Step? && (s.manager.Some? ==> s.manager.value == a.t)
    requires ThreadOk(s, a.t) && ManagerOk(s)
    requires var f := s.objects[s.threads[a.t].o].filename; f in s.fdmap ==> EntryOk(s, f)
    requires InManager(s.threads[a.t]) ==> ManagerPc(s) == s.threads[a.t]
    ensures ManagerOk(Do(s, a))
  {
    hide Owns;
    StepFrame(s, a.t, s.threads[a.t]);
  }

  lemma ManagerStepByObject(s: State, a: Action)
    requires OnObject(a) && Enabled(s, a) && s.manager == None
    ensures ManagerOk(Do(s, a))
  {}

  lemma StepKeepsInvariant(s: State, a: Action)
    requires Invariant(s) && Enabled(s, a)
    ensures Invariant(Do(s, a))
  {
    hide Do, Enabled, ThreadOk, ObjectOk, OwnerOk, EntryOk, FdOk, ManagerOk;
    var s' := Do(s, a);
    Local(s, a);
    forall t | t in s'.threads ensures ThreadOk(s', t) {
      SameThreads(s, a);
      ThreadStep(s, a, t);
    }
    forall o | o in s'.objects ensures ObjectOk(s', o) && OwnerOk(s', o) {
      if o == Target(s, a) { TargetObjectStep(s, a); } else { OldObject(s, a, o); OtherObjectStep(s, a, o); }
      OwnerStep(s, a, o);
    }
    forall f | f in s'.fdmap ensures EntryOk(s', f) { EntryStep(s, a, f); }
    forall fd | fd in s'.fds ensures FdOk(s', fd) { FdStep(s, a, fd); }
    if s.manager.Some? && (OnObject(a) || s.manager.value != a.t) {
      ManagerStepByOther(s, a);
    } else if OnObject(a) {
      ManagerStepByObject(s, a);
    } else {
      ManagerStepByActor(s, a);
    }
  }

  lemma SameThreads(s: State, a: Action)
    requires Enabled(s, a) && (!OnObject(a) ==> ThreadOk(s, a.t))
    ensures Do(s, a).threads.Keys == s.threads.Keys
  {
    if !OnObject(a) { Frame(s, a); }
  }

  lemma {:induction false} RunKeepsInvariant(s: State, run: seq<Action>)
    requires Invariant(s) && Run(s, run).Some?
    ensures Invariant(Run(s, run).value)
    decreases |run|
  {
    hide Invariant, Enabled, Do;
    if run != [] {
      StepKeepsInvariant(s, run[0]);
      RunKeepsInvariant(Do(s, run[0]), run[1..]);
    }
  }

  // ----- Every run from the initial state

  ghost predicate Reachable(s: State) {
    exists tids: set<Tid>, run: seq<Action> :: Run(Initial(tids), run) == Some(s)
  }

  lemma ReachableInvariant(s: State)
    requires Reachable(s)
    ensures Invariant(s)
  {
    var tids: set<Tid>, run: seq<Action> :| Run(Initial(tids), run) == Some(s);
    assert Invariant(Initial(tids));
    RunKeepsInvariant(Initial(tids), run);
  }

  /** At most one object has the lock of a file name. */
  lemma AtMostOneOwner(s: State, o1: Obj, o2: Obj)
    requires Reachable(s) && o1 in s.objects && o2 in s.objects && Owns(s, o1) && Owns(s, o2)
    requires s.objects[o1].filename == s.objects[o2].filename
    ensures o1 == o2
  {
    hide Owns;
    ReachableInvariant(s);
    assert OwnerOk(s, o1) && OwnerOk(s, o2);
  }

  /** So locked() returns true for at most one object of a file name. */
  lemma AtMostOneLocked(s: State, o1: Obj, o2: Obj)
    requires Reachable(s) && o1 in s.objects && o2 in s.objects
    requires s.objects[o1].locked && s.objects[o1].holder == None && s.objects[o2].locked && s.objects[o2].holder == None
    requires s.objects[o1].filename == s.objects[o2].filename
    ensures o1 == o2
  {
    AtMostOneOwner(s, o1, o2);
  }

  /** An object that has the lock has the kernel's lock too, over the only open descriptor of its file. */
  lemma OwnerHasKernelLock(s: State, o: Obj)
    requires Reachable(s) && o in s.objects && Owns(s, o)
    ensures s.objects[o].filename in s.kernel
    ensures exists fd :: fd in s.fds && s.fds[fd] == s.objects[o].filename
    ensures forall fd, fd' :: fd in s.fds && fd' in s.fds && s.fds[fd] == s.fds[fd'] == s.objects[o].filename ==> fd == fd'
  {
    hide Owns, ThreadOk, ObjectOk;
    ReachableInvariant(s);
    assert OwnerOk(s, o);
    var f := s.objects[o].filename;
    assert EntryOk(s, f);
    forall fd | fd in s.fds && s.fds[fd] == f ensures fd == s.fdmap[f].fd {
      assert FdOk(s, fd);
    }
  }

  /** While a file name is in fdmap_, no descriptor is opened or closed for it. */
  lemma NoSecondDescriptor(s: State, a: Action, f: string)
    requires Reachable(s) && Enabled(s, a) && f in s.fdmap
    ensures forall fd :: (fd in s.fds && s.fds[fd] == f) <==> (fd in Do(s, a).fds && Do(s, a).fds[fd] == f)
    ensures f in Do(s, a).kernel
  {
    ReachableInvariant(s);
    hide Invariant, Do, ThreadOk, ObjectOk, OwnerOk, Owns;
    Local(s, a);
    OldEntry(s, f);
    FdsEffect(s, a);
  }

  /** An entry, and the kernel lock behind it, goes away only by the UnLockInternal of the object that made it: after its
      own successful Lock. A Lock that fails because the name is taken, and whatever follows it, releases nothing. */
  lemma OnlyOwnerReleases(s: State, a: Action, f: string)
    requires Reachable(s) && Enabled(s, a) && f in s.fdmap
    requires f !in Do(s, a).fdmap || Do(s, a).fdmap[f] != s.fdmap[f] || f !in Do(s, a).kernel
    ensures a.Step? && s.threads[a.t].Extract? && s.threads[a.t].o == s.fdmap[f].owner
  {
    NoSecondDescriptor(s, a, f);
    ReachableInvariant(s);
    hide Invariant, Do, ObjectOk, Owns;
    Local(s, a);
    FdmapEffect(s, a);
    if !OnObject(a) { TargetLock(s, a); }
  }

  /** The extraction comes from UnLock or from the failed write of the same call; both leave the object unlocked. */
  lemma ExtractionUnlocks(s: State, t: Tid)
    requires Reachable(s) && Enabled(s, Step(t)) && s.threads[t].Extract?
    ensures var o := s.threads[t].o; o in s.objects && Owns(s, o) && !Owns(Do(s, Step(t)), o)
  {
    ReachableInvariant(s);
    hide Invariant;
    Local(s, Step(t));
    TargetLock(s, Step(t));
  }

  predicate Releases(s: State, a: Action, o: Obj) {
    a.Step? && a.t in s.threads && s.threads[a.t].Extract? && s.threads[a.t].o == o
  }

  ghost predicate NeverReleased(s: State, run: seq<Action>, o: Obj)
    requires Run(s, run).Some?
    decreases |run|
  {
    run != [] ==> !Releases(s, run[0], o) && NeverReleased(Do(s, run[0]), run[1..], o)
  }

  /** The lock is kept over any run, whatever other threads and objects do, until the owner releases it. */
  lemma {:induction false} LockPersists(s: State, run: seq<Action>, o: Obj)
    requires Invariant(s) && o in s.objects && Owns(s, o)
    requires Run(s, run).Some? && NeverReleased(s, run, o)
    ensures var s' := Run(s, run).value;
      o in s'.objects && Owns(s', o) && s'.objects[o].filename == s.objects[o].filename && s.objects[o].filename in s'.kernel
    decreases |run|
  {
    hide Invariant, Do, Enabled, Owns;
    if run == [] {
      OwnerIsInKernel(s, o);
    } else {
      StepKeepsInvariant(s, run[0]);
      StepKeepsLock(s, run[0], o);
      LockPersists(Do(s, run[0]), run[1..], o);
    }
  }

  lemma OwnerIsInKernel(s: State, o: Obj)
    requires Invariant(s) && o in s.objects && Owns(s, o)
    ensures s.objects[o].filename in s.kernel
  {
    hide Owns, ThreadOk, ObjectOk, FdOk, ManagerOk;
    assert OwnerOk(s, o);
    assert EntryOk(s, s.objects[o].filename);
  }

  lemma StepKeepsLock(s: State, a: Action, o: Obj)
    requires Invariant(s) && o in s.objects && Owns(s, o) && Enabled(s, a) && !Releases(s, a, o)
    ensures var s' := Do(s, a); o in s'.objects && Owns(s', o) && s'.objects[o].filename == s.objects[o].filename
  {
    hide Invariant, Do, Owns;
    Local(s, a);
    OwnersObject(s, o);
    if o != Target(s, a) {
      OthersKeepLock(s, a, o);
    } else if OnObject(a) {
      NewHasNoLock(s, a);
    } else {
      TargetLock(s, a);
    }
  }

  lemma OwnersObject(s: State, o: Obj)
    requires Invariant(s) && o in s.objects
    ensures ObjectOk(s, o)
  {}

  // ----- How calls end

  /** What a call leaves in locked_ and what it returns. */
  datatype Outcome = Outcome(locked: bool, value: bool)

  /** The outcome of a call of thread t that is decided. */
  function Ending(s: State, t: Tid): Option<Outcome>
    requires t in s.threads
  {
    var pc := s.threads[t];
    if pc == Idle || pc.o !in s.objects then None else
      match pc
      case LockTest(o, _) => if s.objects[o].locked then Some(Outcome(true, false)) else None
      case CloseFailed(_, _, _) => Some(Outcome(false, false))
      case Insert(_, write, _) => if write then None else Some(Outcome(true, true))
      case LeaveLock(_, write, ok) => if ok && write then None else Some(Outcome(ok, ok))
      case UnlockTest(_) => Some(Outcome(false, true))
      case UnlockWait(_, value) => Some(Outcome(false, value))
      case Extract(_, value) => Some(Outcome(false, value))
      case Close(_, _, value) => Some(Outcome(false, value))
      case LeaveUnlock(_, value) => Some(Outcome(false, value))
      case SetLocked(_, result, value) => Some(Outcome(result, value))
      case Leave(o, value) => Some(Outcome(s.objects[o].locked, value))
      case _ => None
  }

  /** Which actions decide a call: a Lock of a locked object keeps it locked and returns false; a name that is empty or
      taken, a failed open, a refused fcntl and a failed write leave it unlocked and return false; a granted fcntl without
      a message and a written message leave it locked and return true; an UnLock leaves it unlocked and returns true. */
  function Decided(s: State, a: Action): Option<Outcome>
    requires Enabled(s, a)
  {
    match a
    case CallLock(_, o, _) => if s.objects[o].locked then Some(Outcome(true, false)) else None
    case CallUnLock(_, _) => Some(Outcome(false, true))
    case OpenResult(_, fd) => if fd == None then Some(Outcome(false, false)) else None
    case FcntlResult(t, granted) =>
      if !granted then Some(Outcome(false, false)) else if s.threads[t].write then None else Some(Outcome(true, true))
    case WriteResult(_, ok) => Some(Outcome(ok, ok))
    case Step(t) =>
      var pc := s.threads[t];
      var f := s.objects[pc.o].filename;
      if pc.Check? && (f == "" || f in s.fdmap) then Some(Outcome(false, false)) else None
    case _ => None
  }

  /** Thread t does not return from its call in the run. */
  ghost predicate StaysInside(s: State, run: seq<Action>, t: Tid)
    requires Run(s, run).Some?
    decreases |run|
  {
    run != [] ==> !Returns(s, run[0], t) && StaysInside(Do(s, run[0]), run[1..], t)
  }

  predicate Returns(s: State, a: Action, t: Tid) { a == Step(t) && t in s.threads && s.threads[t].Leave? }

  lemma DecisionIsEnding(s: State, a: Action)
    requires Enabled(s, a) && Decided(s, a).Some? && !OnObject(a) && ThreadOk(s, a.t)
    ensures a.t in Do(s, a).threads && Ending(Do(s, a), a.t) == Decided(s, a)
  {
    hide ThreadOk;
  }

  lemma OwnStepKeepsEnding(s: State, t: Tid, pc: Pc)
    requires t in s.threads && pc == s.threads[t] && pc != Idle && pc.o in s.objects && !pc.Leave?
    requires Ending(s, t).Some? && ThreadEnabled(s, Step(t))
    ensures var s' := DoStep(s, t, pc); t in s'.threads && Ending(s', t) == Ending(s, t)
  {}

  lemma OwnActionKeepsEnding(s: State, a: Action)
    requires !OnObject(a) && Enabled(s, a) && ThreadOk(s, a.t) && Ending(s, a.t).Some? && !Returns(s, a, a.t)
    ensures a.t in Do(s, a).threads && Ending(Do(s, a), a.t) == Ending(s, a.t)
  {
    hide DoStep, InManager;
    if a.Step? { OwnStepKeepsEnding(s, a.t, s.threads[a.t]); }
  }

  lemma OtherActionKeepsEnding(s: State, a: Action, t: Tid)
    requires Enabled(s, a) && t in s.threads && (OnObject(a) || a.t != t) && ThreadOk(s, t) && Ending(s, t).Some?
    requires !OnObject(a) ==> ThreadOk(s, a.t)
    ensures t in Do(s, a).threads && Ending(Do(s, a), t) == Ending(s, t)
  {
    hide DoThread, InManager;
    if !OnObject(a) { FrameThread(s, a, t); }
    OtherTarget(s, a, t);
    FrameObject(s, a, s.threads[t].o);
  }

  /** The object that a thread is inside of is not the target of anything else. */
  lemma OtherTarget(s: State, a: Action, t: Tid)
    requires Enabled(s, a) && t in s.threads && (OnObject(a) || a.t != t) && ThreadOk(s, t) && s.threads[t] != Idle
    requires !OnObject(a) ==> ThreadOk(s, a.t)
    ensures s.threads[t].o in s.objects && s.threads[t].o != Target(s, a)
  {
    hide InManager;
  }

  lemma {:induction false} EndingIsReached(s: State, run: seq<Action>, t: Tid)
    requires Invariant(s) && t in s.threads && Ending(s, t).Some?
    requires Run(s, run).Some? && StaysInside(s, run, t)
    ensures var s' := Run(s, run).value; Invariant(s') && t in s'.threads && Ending(s', t) == Ending(s, t)
    decreases |run|
  {
    hide Invariant, Do, Enabled, Ending;
    if run != [] {
      StepKeepsInvariant(s, run[0]);
      ActionKeepsEnding(s, run[0], t);
      EndingIsReached(Do(s, run[0]), run[1..], t);
    }
  }

  lemma ActionKeepsEnding(s: State, a: Action, t: Tid)
    requires Invariant(s) && Enabled(s, a) && t in s.threads && Ending(s, t).Some? && !Returns(s, a, t)
    ensures t in Do(s, a).threads && Ending(Do(s, a), t) == Ending(s, t)
  {
    hide Do, Enabled, Ending, ObjectOk, OwnerOk, EntryOk, FdOk, ManagerOk;
    Local(s, a);
    assert ThreadOk(s, t);
    if !OnObject(a) && a.t == t { OwnActionKeepsEnding(s, a); } else { OtherActionKeepsEnding(s, a, t); }
  }

  /** The entry of an object's file name is its own. */
  predicate HasEntry(s: State, o: Obj)
    requires o in s.objects
  {
    var f := s.objects[o].filename;
    f in s.fdmap && s.fdmap[f].owner == o
  }

  lemma LockedHasEntry(s: State, t: Tid, o: Obj)
    requires Invariant(s) && t in s.threads && s.threads[t].Leave? && s.threads[t].o == o
    ensures o in s.objects && (HasEntry(s, o) <==> s.objects[o].locked)
    ensures Ending(s, t) == Some(Outcome(s.objects[o].locked, s.threads[t].value))
  {
    hide FdOk, ManagerOk, InManager;
    assert ThreadOk(s, t);
    assert OwnerOk(s, o);
    var f := s.objects[o].filename;
    if f in s.fdmap { assert EntryOk(s, f); }
  }

  /** However a call is decided, and whatever other threads do until it returns: when it is about to return, locked_ and
      the value are what was decided, and the object has the entry of its file name exactly when it is locked. */
  lemma CallEnds(s: State, a: Action, run: seq<Action>, o: Obj)
    requires Reachable(s) && Enabled(s, a) && Decided(s, a).Some?
    requires Run(Do(s, a), run).Some? && StaysInside(Do(s, a), run, a.t)
    requires var s' := Run(Do(s, a), run).value; a.t in s'.threads && s'.threads[a.t].Leave? && s'.threads[a.t].o == o
    ensures var s', outcome := Run(Do(s, a), run).value, Decided(s, a).value;
      && o in s'.objects && s'.objects[o].locked == outcome.locked && s'.threads[a.t].value == outcome.value
      && (HasEntry(s', o) <==> outcome.locked)
  {
    hide Do, Enabled, Invariant, Ending, Run, HasEntry;
    ReachableInvariant(s);
    Local(s, a);
    DecisionIsEnding(s, a);
    StepKeepsInvariant(s, a);
    EndingIsReached(Do(s, a), run, a.t);
    LockedHasEntry(Run(Do(s, a), run).value, a.t, o);
  }

  /** Thread t is in a Lock with a message that is not written, or has failed. */
  predicate IsUnwritten(s: State, t: Tid)
    requires t in s.threads
  {
    var pc := s.threads[t];
    pc != Idle && pc.o in s.objects &&
    match pc
    case LockTest(o, write) => write && !s.objects[o].locked
    case LockWait(_, write) => write
    case Check(_, write) => write
    case Open(_, write) => write
    case Fcntl(_, write, _) => write
    case CloseFailed(_, write, _) => write
    case Insert(_, write, _) => write
    case LeaveLock(_, write, _) => write
    case Write(_) => true
    case UnlockTest(_) => false
    case SetLocked(_, result, _) => !result
    case Leave(o, _) => !s.objects[o].locked
    case _ => true
  }

  predicate Writes(a: Action, t: Tid) { a == WriteResult(t, true) }

  lemma OwnStepKeepsUnwritten(s: State, t: Tid, pc: Pc)
    requires t in s.threads && pc == s.threads[t] && pc != Idle && pc.o in s.objects && !pc.Leave?
    requires IsUnwritten(s, t) && ThreadEnabled(s, Step(t))
    ensures var s' := DoStep(s, t, pc); t in s'.threads && IsUnwritten(s', t)
  {}

  lemma ActionKeepsUnwritten(s: State, a: Action, t: Tid)
    requires Invariant(s) && Enabled(s, a) && t in s.threads && IsUnwritten(s, t) && !Returns(s, a, t) && !Writes(a, t)
    ensures t in Do(s, a).threads && IsUnwritten(Do(s, a), t)
  {
    hide Do, Enabled, IsUnwritten, ObjectOk, OwnerOk, EntryOk, FdOk, ManagerOk;
    Local(s, a);
    assert ThreadOk(s, t);
    if !OnObject(a) && a.t == t { OwnActionKeepsUnwritten(s, a); } else { OtherActionKeepsUnwritten(s, a, t); }
  }

  lemma OwnActionKeepsUnwritten(s: State, a: Action)
    requires !OnObject(a) && Enabled(s, a) && ThreadOk(s, a.t)
    requires IsUnwritten(s, a.t) && !Returns(s, a, a.t) && !Writes(a, a.t)
    ensures a.t in Do(s, a).threads && IsUnwritten(Do(s, a), a.t)
  {
    hide DoStep, InManager;
    if a.Step? { OwnStepKeepsUnwritten(s, a.t, s.threads[a.t]); }
  }

  lemma OtherActionKeepsUnwritten(s: State, a: Action, t: Tid)
    requires Enabled(s, a) && t in s.threads && (OnObject(a) || a.t != t) && ThreadOk(s, t) && IsUnwritten(s, t)
    requires !OnObject(a) ==> ThreadOk(s, a.t)
    ensures t in Do(s, a).threads && IsUnwritten(Do(s, a), t)
  {
    hide DoThread, InManager;
    if !OnObject(a) { FrameThread(s, a, t); }
    OtherTarget(s, a, t);
    FrameObject(s, a, s.threads[t].o);
  }

  /** A Lock with a message ends locked only when the message has been written. */
  lemma {:induction false} MessageIsWritten(s: State, run: seq<Action>, t: Tid, o: Obj)
    requires Invariant(s) && t in s.threads && IsUnwritten(s, t)
    requires Run(s, run).Some? && StaysInside(s, run, t)
    requires var s' := Run(s, run).value;
      t in s'.threads && s'.threads[t].Leave? && s'.threads[t].o == o && o in s'.objects && s'.objects[o].locked
    ensures WriteResult(t, true) in run
    decreases |run|
  {
    hide Invariant, Do, Enabled;
    if run != [] && !Writes(run[0], t) {
      hide IsUnwritten;
      StepKeepsInvariant(s, run[0]);
      ActionKeepsUnwritten(s, run[0], t);
      MessageIsWritten(Do(s, run[0]), run[1..], t, o);
    }
  }

  lemma CallIsUnwritten(s: State, t: Tid, o: Obj)
    requires Enabled(s, CallLock(t, o, true)) && !s.objects[o].locked
    ensures var s' := Do(s, CallLock(t, o, true)); t in s'.threads && IsUnwritten(s', t)
  {}

  /** Nobody waits for ever: a thread inside a call can go on, or it waits for the manager, whose holder can go on. */
  lemma NoDeadlock(s: State, t: Tid)
    requires Reachable(s) && t in s.threads && s.threads[t] != Idle
    ensures exists a :: !OnObject(a) && Enabled(s, a) && (a.t == t || s.manager == Some(a.t))
  {
    ReachableInvariant(s);
    hide ObjectOk, OwnerOk, EntryOk, FdOk, ManagerOk, Do;
    assert ThreadOk(s, t);
    if (s.threads[t].LockWait? || s.threads[t].UnlockWait?) && s.manager.Some? {
      assert s.manager.value in s.threads && InManager(s.threads[s.manager.value]) by {
        assert ManagerOk(s);
        ManagerIsInside(s);
      }
      assert ThreadOk(s, s.manager.value);
      CanGoOn(s, s.manager.value);
    } else {
      CanGoOn(s, t);
    }
  }

  lemma ManagerIsInside(s: State)
    requires ManagerOk(s) && s.manager.Some?
    ensures s.manager.value in s.threads && InManager(s.threads[s.manager.value])
  {}

  lemma CanGoOn(s: State, t: Tid)
    requires t in s.threads && ThreadOk(s, t) && s.threads[t] != Idle
    requires (s.threads[t].LockWait? || s.threads[t].UnlockWait?) ==> s.manager == None
    ensures exists a :: !OnObject(a) && Enabled(s, a) && a.t == t
  {
    var pc := s.threads[t];
    var a := if pc.LockWait? || pc.UnlockWait? then AcquireManager(t)
      else if pc.Open? then OpenResult(t, None)
      else if pc.Fcntl? then FcntlResult(t, true)
      else if pc.Write? then WriteResult(t, true)
      else Step(t);
    assert !OnObject(a) && Enabled(s, a) && a.t == t;
  }
}
