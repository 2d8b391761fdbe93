/**
 The task launcher as a state machine over the steps of its threads of control: callers of `addTask` and
 the jobs it has handed to the thread pool, which may run in any order and relaunch their tasks. Every
 read of a counter is a step of its own, so that a test may compare values of different moments.
 */
module TaskLauncher {

  import opened Sequences

  /** What follows `checkLaunch`: the end of a caller's `addTask`, the rest of a job, or its last check. */
  datatype After = Return | Count | Finish

  /**
   A thread of control and the task object it owns, if any: a call of `addTask` (`Adding`); the loop of
   `checkLaunch`, which reads one counter (`Checking`), compares it with the other (`Measuring`) and, if
   there is room (`Entering`), takes a task off the queue (`Carrying`) and counts it (`Launching`); a job in
   the pool and in `Task` (`Pooled`, `Running`, `Counting`); and `checkFinished`, which reads the two
   counters (`Asking`, `Matching`), `no_more_tasks` (`Even`) and the queue (`Ended`), and tries the lock.
   The operands of `-` and `==` are read in either order; `first` is the value read before the other.
   */
  datatype Thread =
    | Adding(task: nat, after: After)
    | Checking(after: After) | Measuring(after: After, launchedFirst: bool, first: nat) | Entering(after: After)
    | Carrying(task: nat, after: After) | Launching(task: nat, after: After)
    | Pooled(task: nat) | Running(task: nat) | Counting
    | Asking | Matching(launchedFirst: bool, first: nat) | Even | Ended | Trying
    | Locked | Calling | Unlocking

  /** Who owns a task object, as history. */
  datatype Owner = Held(thread: nat) | Queued | Deleted

  datatype Lock = Unlocked | LockedBy(thread: nat)

  /**
   Threads are numbered as they appear, `next` is the next number; task objects are numbered likewise.
   `launched` and `finished` are exact, and the counters are their remainders. `acquired` counts, as
   history, how often a thread has got `finish_lock`.
   */
  datatype Launcher = Launcher(
    max: nat, q: seq<nat>, threads: map<nat, Thread>, next: nat, tasks: nat,
    launched: nat, finished: nat, noMore: bool, lock: Lock, allFinished: bool, callbacks: nat,
    owner: map<nat, Owner>, deleted: seq<nat>, acquired: nat)

  function Init(max: nat): Launcher {
    Launcher(max, [], map[], 0, 0, 0, 0, false, Unlocked, false, 0, map[], [], 0)
  }

  /**
   A new task, `setNoMoreTasks`, `setMaxParallel`, or a thread's next step; `yes` decides which counter is
   read first and whether a task asks to be relaunched.
   */
  datatype Step = Add | NoMore | SetMax(max: nat) | Advance(t: nat, yes: bool)

  /** The numbers of the type `size_t`. */
  const WORDS := 0x1_0000_0000_0000_0000

  /** A counter as it is read. */
  function Counter(l: Launcher, ofLaunched: bool): nat { (if ofLaunched then l.launched else l.finished) % WORDS }

  /** `countRunning`: the difference of the two counters, which wraps around if it would be negative. */
  function Difference(launchedFirst: bool, first: nat, second: nat): nat {
    (if launchedFirst then first - second else second - first) % WORDS
  }

  function Put(l: Launcher, t: nat, th: Thread): Launcher { l.(threads := l.threads[t := th]) }

  function End(l: Launcher, t: nat): Launcher { l.(threads := l.threads - {t}) }

  /** Where `checkLaunch` returns to. */
  function Resume(l: Launcher, t: nat, after: After): Launcher {
    match after
    case Return => End(l, t)
    case Count => Put(l, t, Counting)
    case Finish => Put(l, t, Asking)
  }

  predicate OwnsSome(th: Thread) { th.Adding? || th.Carrying? || th.Launching? || th.Pooled? || th.Running? }

  predicate InLoop(th: Thread) { th.Checking? || th.Measuring? || th.Entering? }

  predicate InTest(th: Thread) { th.Asking? || th.Matching? || th.Even? || th.Ended? || th.Trying? }

  predicate InEnd(th: Thread) { th.Locked? || th.Calling? || th.Unlocking? }

  /** The steps of a thread that owns a task object. */
  function MoveOwner(l: Launcher, t: nat, yes: bool): Launcher
    requires t in l.threads && OwnsSome(l.threads[t])
  {
    match l.threads[t]
    case Adding(task, after) => Put(l, t, Checking(after)).(q := l.q + [task], owner := l.owner[task := Queued])
    case Carrying(task, after) => Put(l, t, Launching(task, after)).(launched := l.launched + 1)
    case Launching(task, after) =>
      Put(Put(l, t, Checking(after)), l.next, Pooled(task)).(next := l.next + 1, owner := l.owner[task := Held(l.next)])
    case Pooled(task) => Put(l, t, Running(task))
    case Running(task) =>
      if yes then Put(l, t, Adding(task, Count))
      else Put(l, t, Counting).(owner := l.owner[task := Deleted], deleted := l.deleted + [task])
  }

  /** The steps under `finish_lock`, which a thread leaves without unlocking if another one has finished. */
  function MoveEnd(l: Launcher, t: nat): Launcher
    requires t in l.threads && InEnd(l.threads[t])
  {
    match l.threads[t]
    case Locked => if l.allFinished then End(l, t) else Put(l, t, Calling).(allFinished := true)
    case Calling => Put(l, t, Unlocking).(callbacks := l.callbacks + 1)
    case Unlocking => End(l, t).(lock := Unlocked)
  }

  /** The steps of the loop in `checkLaunch` that find room and take a task. */
  function MoveLoop(l: Launcher, t: nat, yes: bool): Launcher
    requires t in l.threads && InLoop(l.threads[t])
  {
    match l.threads[t]
    case Checking(after) => Put(l, t, Measuring(after, yes, Counter(l, yes)))
    case Measuring(after, launchedFirst, first) =>
      if Difference(launchedFirst, first, Counter(l, !launchedFirst)) < l.max then Put(l, t, Entering(after))
      else Resume(l, t, after)
    case Entering(after) =>
      if l.q == [] then Resume(l, t, after)
      else Put(l, t, Carrying(l.q[0], after)).(q := l.q[1..], owner := l.owner[l.q[0] := Held(t)])
  }

  /** The test of `checkFinished`, which ends with the first of its conditions that does not hold. */
  function MoveTest(l: Launcher, t: nat, yes: bool): Launcher
    requires t in l.threads && InTest(l.threads[t])
  {
    match l.threads[t]
    case Asking => Put(l, t, Matching(yes, Counter(l, yes)))
    case Matching(launchedFirst, first) =>
      if first == Counter(l, !launchedFirst) then Put(l, t, Even) else End(l, t)
    case Even => if l.noMore then Put(l, t, Ended) else End(l, t)
    case Ended => if l.q == [] then Put(l, t, Trying) else End(l, t)
    case Trying =>
      if l.lock == Unlocked then Put(l, t, Locked).(lock := LockedBy(t), acquired := l.acquired + 1) else End(l, t)
  }

  function Move(l: Launcher, t: nat, yes: bool): Launcher
    requires t in l.threads
  {
    var th := l.threads[t];
    if OwnsSome(th) then MoveOwner(l, t, yes)
    else if InLoop(th) then MoveLoop(l, t, yes)
    else if InTest(th) then MoveTest(l, t, yes)
    else if InEnd(th) then MoveEnd(l, t)
    else Put(l, t, Checking(Finish)).(finished := l.finished + 1)
  }

  function Next(l: Launcher, step: Step): Launcher {
    match step
    case Add =>
      Put(l, l.next, Adding(l.tasks, Return))
        .(next := l.next + 1, tasks := l.tasks + 1, owner := l.owner[l.tasks := Held(l.next)])
    case NoMore => l.(noMore := true)
    case SetMax(max) => l.(max := max)
    case Advance(t, yes) => if t in l.threads then Move(l, t, yes) else l
  }

  function Execute(max: nat, steps: seq<Step>): Launcher {
    if steps == [] then Init(max) else Next(Execute(max, steps[..|steps| - 1]), steps[|steps| - 1])
  }

  // ----- ownership

  predicate Owns(th: Thread, task: nat) { OwnsSome(th) && th.task == task }

  ghost predicate TaskInv(l: Launcher, task: nat) {
    && (task in l.owner <==> task < l.tasks)
    && (task in l.q <==> task in l.owner && l.owner[task] == Queued)
    && (task in l.deleted <==> task in l.owner && l.owner[task] == Deleted)
    && (forall t :: t in l.threads && Owns(l.threads[t], task) ==> task in l.owner && l.owner[task] == Held(t))
    && (task in l.owner && l.owner[task].Held? ==>
          l.owner[task].thread in l.threads && Owns(l.threads[l.owner[task].thread], task))
  }

  ghost predicate TasksInv(l: Launcher) {
    && Distinct(l.q) && Distinct(l.deleted)
    && (forall t :: t in l.threads ==> t < l.next)
    && forall task: nat :: TaskInv(l, task)
  }

  // ----- counters

  /** Launches that the thread stands for and that are not yet counted as finished. */
  function Owed(th: Thread): nat {
    match th
    case Adding(_, after) => OwedAfter(after)
    case Checking(after) => OwedAfter(after)
    case Measuring(after, _, _) => OwedAfter(after)
    case Entering(after) => OwedAfter(after)
    case Carrying(_, after) => OwedAfter(after)
    case Launching(_, after) => 1 + OwedAfter(after)
    case Pooled(_) => 1
    case Running(_) => 1
    case Counting => 1
    case _ => 0
  }

  function OwedAfter(after: After): nat { if after.Count? then 1 else 0 }

  function Total(threads: map<nat, Thread>, n: nat): nat {
    if n == 0 then 0 else Total(threads, n - 1) + (if n - 1 in threads then Owed(threads[n - 1]) else 0)
  }

  lemma {:induction false} TotalPut(threads: map<nat, Thread>, n: nat, t: nat, th: Thread)
    requires t < n
    ensures Total(threads[t := th], n) ==
      Total(threads, n) + Owed(th) - (if t in threads then Owed(threads[t]) else 0)
  {
    if t == n - 1 {
      TotalSame(threads, threads[t := th], n - 1);
    } else {
      TotalPut(threads, n - 1, t, th);
    }
  }

  lemma {:induction false} TotalEnd(threads: map<nat, Thread>, n: nat, t: nat)
    requires t < n
    ensures Total(threads - {t}, n) == Total(threads, n) - (if t in threads then Owed(threads[t]) else 0)
  {
    if t == n - 1 {
      TotalSame(threads, threads - {t}, n - 1);
    } else {
      TotalEnd(threads, n - 1, t);
    }
  }

  lemma {:induction false} TotalSame(a: map<nat, Thread>, b: map<nat, Thread>, n: nat)
    requires forall t :: 0 <= t < n ==> (t in a <==> t in b) && (t in a ==> a[t] == b[t])
    ensures Total(a, n) == Total(b, n)
  {
    if n > 0 {
      TotalSame(a, b, n - 1);
    }
  }

  /** Every launch is finished or stands for a task between its launch and the end of its job. */
  ghost predicate CountInv(l: Launcher) {
    && (forall t :: t in l.threads ==> t < l.next)
    && l.launched == l.finished + Total(l.threads, l.next)
  }

  // ----- the end

  /**
   The history of `finish_lock`: not asked for yet; held by the thread that calls the callback; free after
   it; held by a second thread, which is about to return or has returned without unlocking it.
   */
  ghost predicate LockInv(l: Launcher) {
    match l.lock
    case Unlocked => if l.allFinished then l.acquired == 1 && l.callbacks == 1 else l.acquired == 0 && l.callbacks == 0
    case LockedBy(t) =>
      && l.noMore && t < l.next
      && if t in l.threads && l.threads[t].Calling? then l.allFinished && l.acquired == 1 && l.callbacks == 0
         else if t in l.threads && l.threads[t].Unlocking? then l.allFinished && l.acquired == 1 && l.callbacks == 1
         else if t in l.threads && !l.allFinished then l.threads[t].Locked? && l.acquired == 1 && l.callbacks == 0
         else l.allFinished && l.acquired == 2 && l.callbacks == 1 && (t in l.threads ==> l.threads[t].Locked?)
  }

  ghost predicate EndInv(l: Launcher) {
    && (forall t :: t in l.threads ==> t < l.next)
    && (forall t :: t in l.threads && InEnd(l.threads[t]) ==> l.lock == LockedBy(t))
    && (forall t :: t in l.threads && (l.threads[t].Ended? || l.threads[t].Trying?) ==> l.noMore)
    && (l.acquired > 0 ==> l.noMore)
    && LockInv(l)
  }

  ghost predicate Inv(l: Launcher) { TasksInv(l) && CountInv(l) && EndInv(l) }

  lemma LaunchCount(l: Launcher, t: nat, yes: bool)
    requires CountInv(l) && t in l.threads && l.threads[t].Launching?
    ensures CountInv(Move(l, t, yes))
  {
    var th := Checking(l.threads[t].after);
    TotalPut(l.threads, l.next, t, th);
    TotalSame(l.threads[t := th], Move(l, t, yes).threads, l.next);
  }

  /** What a thread owes changes as the counters do. */
  ghost predicate OwedMoves(l: Launcher, t: nat, m: Launcher)
    requires t in l.threads
  {
    && m.threads == (if t in m.threads then l.threads[t := m.threads[t]] else l.threads - {t})
    && m.next == l.next
    && m.launched + Owed(l.threads[t]) + l.finished ==
       l.launched + (if t in m.threads then Owed(m.threads[t]) else 0) + m.finished
  }

  lemma OwnerOwed(l: Launcher, t: nat, yes: bool)
    requires t in l.threads && OwnsSome(l.threads[t]) && !l.threads[t].Launching?
    ensures OwedMoves(l, t, Move(l, t, yes))
  {}

  lemma LoopOwed(l: Launcher, t: nat, yes: bool)
    requires t in l.threads && InLoop(l.threads[t])
    ensures OwedMoves(l, t, MoveLoop(l, t, yes))
  {
    hide Counter, Difference;
  }

  lemma TestOwed(l: Launcher, t: nat, yes: bool)
    requires t in l.threads && InTest(l.threads[t])
    ensures OwedMoves(l, t, MoveTest(l, t, yes))
  {
    hide Counter;
  }

  lemma OtherOwed(l: Launcher, t: nat, yes: bool)
    requires t in l.threads && !OwnsSome(l.threads[t])
    ensures OwedMoves(l, t, Move(l, t, yes))
  {
    hide MoveOwner, MoveLoop, MoveTest;
    if InLoop(l.threads[t]) {
      LoopOwed(l, t, yes);
      hide OwedMoves;
    } else if InTest(l.threads[t]) {
      TestOwed(l, t, yes);
      hide OwedMoves;
    }
  }

  lemma MoveCount(l: Launcher, t: nat, yes: bool)
    requires CountInv(l) && t in l.threads
    ensures CountInv(Move(l, t, yes))
  {
    hide Move, Total, Owed;
    if l.threads[t].Launching? {
      LaunchCount(l, t, yes);
    } else {
      var m := Move(l, t, yes);
      if OwnsSome(l.threads[t]) {
        OwnerOwed(l, t, yes);
      } else {
        OtherOwed(l, t, yes);
      }
      if t in m.threads {
        TotalPut(l.threads, l.next, t, m.threads[t]);
      } else {
        TotalEnd(l.threads, l.next, t);
      }
    }
  }

  lemma AddCount(l: Launcher)
    requires CountInv(l)
    ensures CountInv(Next(l, Add))
  {
    TotalSame(l.threads, Next(l, Add).threads, l.next);
  }

  /** Past the test of `no_more_tasks`. */
  predicate Closing(th: Thread) { th.Ended? || th.Trying? || InEnd(th) }

  /** A step outside `checkFinished`'s critical section leaves the end alone. */
  ghost predicate EndAlone(l: Launcher, m: Launcher) {
    && m.lock == l.lock && m.allFinished == l.allFinished && m.callbacks == l.callbacks && m.acquired == l.acquired
    && m.next >= l.next && (l.noMore ==> m.noMore)
    && (forall u :: u in m.threads ==> u < m.next && (u in l.threads || u == l.next))
    && (forall u :: u in l.threads && Closing(l.threads[u]) ==> u in m.threads)
    && (forall u :: u in m.threads && (Closing(m.threads[u]) || (u in l.threads && Closing(l.threads[u]))) ==>
          u in l.threads && m.threads[u] == l.threads[u])
  }

  lemma EndKept(l: Launcher, m: Launcher)
    requires EndInv(l) && EndAlone(l, m)
    ensures EndInv(m)
  {}

  lemma ClosingTest(l: Launcher, t: nat, yes: bool)
    requires EndInv(l) && t in l.threads && (l.threads[t].Even? || l.threads[t].Ended? || l.threads[t].Trying?)
    ensures EndInv(MoveTest(l, t, yes))
  {
    hide Counter;
  }

  lemma CriticalEnd(l: Launcher, t: nat)
    requires EndInv(l) && t in l.threads && InEnd(l.threads[t])
    ensures EndInv(MoveEnd(l, t))
  {}

  lemma LaunchOutside(l: Launcher, t: nat, yes: bool)
    requires t in l.threads && l.threads[t].Launching? && forall u :: u in l.threads ==> u < l.next
    ensures EndAlone(l, MoveOwner(l, t, yes))
  {}

  lemma OwnerOutside(l: Launcher, t: nat, yes: bool)
    requires t in l.threads && OwnsSome(l.threads[t]) && forall u :: u in l.threads ==> u < l.next
    ensures EndAlone(l, MoveOwner(l, t, yes))
  {
    if l.threads[t].Launching? {
      LaunchOutside(l, t, yes);
      hide EndAlone, MoveOwner;
    }
  }

  lemma LoopOutside(l: Launcher, t: nat, yes: bool)
    requires t in l.threads && InLoop(l.threads[t]) && forall u :: u in l.threads ==> u < l.next
    ensures EndAlone(l, MoveLoop(l, t, yes))
  {
    hide Counter, Difference, Resume;
    if l.threads[t].Measuring? || l.threads[t].Entering? {
      ResumeOutside(l, t, l.threads[t].after);
    }
  }

  lemma ResumeOutside(l: Launcher, t: nat, after: After)
    requires t in l.threads && !Closing(l.threads[t]) && forall u :: u in l.threads ==> u < l.next
    ensures EndAlone(l, Resume(l, t, after))
  {}

  lemma TestOutside(l: Launcher, t: nat, yes: bool)
    requires t in l.threads && (l.threads[t].Asking? || l.threads[t].Matching?) &&
      forall u :: u in l.threads ==> u < l.next
    ensures EndAlone(l, MoveTest(l, t, yes))
  {
    hide Counter;
  }

  lemma OutsideEnd(l: Launcher, t: nat, yes: bool)
    requires t in l.threads && !l.threads[t].Even? && !Closing(l.threads[t]) &&
      forall u :: u in l.threads ==> u < l.next
    ensures EndAlone(l, Move(l, t, yes))
  {
    hide MoveEnd, MoveOwner, MoveLoop, MoveTest, OwnsSome, InLoop;
    if OwnsSome(l.threads[t]) {
      OwnerOutside(l, t, yes);
      hide EndAlone;
    } else if InLoop(l.threads[t]) {
      LoopOutside(l, t, yes);
      hide EndAlone;
    } else if InTest(l.threads[t]) {
      TestOutside(l, t, yes);
      hide EndAlone;
    }
  }

  lemma EndStep(l: Launcher, t: nat, yes: bool)
    requires EndInv(l) && t in l.threads
    ensures EndInv(Move(l, t, yes))
  {
    hide MoveEnd, MoveTest, MoveLoop, MoveOwner;
    if InEnd(l.threads[t]) {
      CriticalEnd(l, t);
      hide EndInv;
    } else if l.threads[t].Even? || Closing(l.threads[t]) {
      ClosingTest(l, t, yes);
      hide EndInv;
    } else {
      OutsideEnd(l, t, yes);
      hide Move;
      EndKept(l, Move(l, t, yes));
    }
  }

  /** A step that concerns `task` only. */
  lemma MovesKeep(l: Launcher, m: Launcher, task: nat)
    requires TasksInv(l) && TaskInv(m, task) && Distinct(m.q) && Distinct(m.deleted)
    requires forall t :: t in m.threads ==> t < m.next
    requires forall k: nat :: k != task ==>
      && (k in m.owner <==> k in l.owner) && (k in l.owner ==> m.owner[k] == l.owner[k])
      && (k in m.q <==> k in l.q) && (k in m.deleted <==> k in l.deleted) && (k < m.tasks <==> k < l.tasks)
    requires forall k: nat, t :: k != task ==>
      ((t in m.threads && Owns(m.threads[t], k)) <==> (t in l.threads && Owns(l.threads[t], k)))
    ensures TasksInv(m)
  {
    forall k: nat
      ensures TaskInv(m, k)
    {
      if k != task {
        assert TaskInv(l, k);
      }
    }
  }

  lemma AddTasks(l: Launcher)
    requires TasksInv(l)
    ensures TasksInv(Next(l, Add))
  {
    assert TaskInv(l, l.tasks);
    MovesKeep(l, Next(l, Add), l.tasks);
  }

  lemma TakeTasks(l: Launcher, t: nat, yes: bool)
    requires TasksInv(l) && t in l.threads && l.threads[t].Entering? && l.q != []
    ensures TasksInv(Move(l, t, yes))
  {
    var task := l.q[0];
    Popped(l.q);
    assert task in l.q && TaskInv(l, task);
    assert Distinct(l.deleted) && forall u :: u in l.threads ==> u < l.next;
    hide TasksInv, Distinct;
    MovesKeep(l, Move(l, t, yes), task);
  }

  lemma LaunchTasks(l: Launcher, t: nat, yes: bool)
    requires TasksInv(l) && t in l.threads && l.threads[t].Launching?
    ensures TasksInv(Move(l, t, yes))
  {
    var task := l.threads[t].task;
    assert TaskInv(l, task);
    assert Distinct(l.q) && Distinct(l.deleted) && forall u :: u in l.threads ==> u < l.next;
    hide TasksInv, MoveEnd, Distinct;
    MovesKeep(l, Move(l, t, yes), task);
  }

  lemma Pushed(s: seq<nat>, v: nat)
    requires Distinct(s) && v !in s
    ensures Distinct(s + [v]) && forall u :: u in s + [v] <==> u in s || u == v
  {}

  lemma OwnTasks(l: Launcher, t: nat, yes: bool)
    requires TasksInv(l) && t in l.threads && OwnsSome(l.threads[t]) && !l.threads[t].Launching?
    ensures TasksInv(Move(l, t, yes))
  {
    var task := l.threads[t].task;
    assert TaskInv(l, task);
    assert Distinct(l.q) && Distinct(l.deleted) && forall u :: u in l.threads ==> u < l.next;
    assert task !in l.q && task !in l.deleted;
    Pushed(l.q, task);
    Pushed(l.deleted, task);
    assert Move(l, t, yes) == MoveOwner(l, t, yes);
    hide TasksInv, Distinct, Move;
    MovesKeep(l, MoveOwner(l, t, yes), task);
  }

  /** The steps that move no task object. */
  lemma IdleTasks(l: Launcher, t: nat, yes: bool)
    requires TasksInv(l) && t in l.threads && !OwnsSome(l.threads[t]) && !(l.threads[t].Entering? && l.q != [])
    ensures TasksInv(Move(l, t, yes))
  {
    assert TaskInv(l, l.tasks);
    assert Distinct(l.q) && Distinct(l.deleted) && forall u :: u in l.threads ==> u < l.next;
    hide TasksInv, Distinct, MoveOwner;
    var m := Move(l, t, yes);
    IdleThreads(l, t, yes);
    hide Move;
    MovesKeep(l, m, l.tasks);
  }

  /** No task object has moved, and only the thread `t` has. */
  ghost predicate Idle(l: Launcher, t: nat, m: Launcher) {
    && m.owner == l.owner && m.q == l.q && m.deleted == l.deleted && m.tasks == l.tasks && m.next == l.next
    && (forall u :: u in m.threads ==> u in l.threads)
    && (forall u :: u in l.threads && u != t ==> u in m.threads && m.threads[u] == l.threads[u])
    && (t in m.threads ==> !OwnsSome(m.threads[t]))
  }

  lemma IdleLoop(l: Launcher, t: nat, yes: bool)
    requires t in l.threads && InLoop(l.threads[t]) && !(l.threads[t].Entering? && l.q != [])
    ensures Idle(l, t, MoveLoop(l, t, yes))
  {
    hide Counter, Difference;
  }

  lemma IdleTest(l: Launcher, t: nat, yes: bool)
    requires t in l.threads && InTest(l.threads[t])
    ensures Idle(l, t, MoveTest(l, t, yes))
  {
    hide Counter;
  }

  lemma IdleThreads(l: Launcher, t: nat, yes: bool)
    requires t in l.threads && !OwnsSome(l.threads[t]) && !(l.threads[t].Entering? && l.q != [])
    ensures Idle(l, t, Move(l, t, yes))
  {
    hide MoveOwner, MoveLoop, MoveTest;
    if InLoop(l.threads[t]) {
      IdleLoop(l, t, yes);
      hide Idle;
    } else if InTest(l.threads[t]) {
      IdleTest(l, t, yes);
      hide Idle;
    }
  }

  lemma MoveTasks(l: Launcher, t: nat, yes: bool)
    requires TasksInv(l) && t in l.threads
    ensures TasksInv(Move(l, t, yes))
  {
    hide TasksInv, Move;
    if l.threads[t].Launching? {
      LaunchTasks(l, t, yes);
    } else if OwnsSome(l.threads[t]) {
      OwnTasks(l, t, yes);
    } else if l.threads[t].Entering? && l.q != [] {
      TakeTasks(l, t, yes);
    } else {
      IdleTasks(l, t, yes);
    }
  }

  /** The steps that change no thread. */
  lemma SettingInv(l: Launcher, step: Step)
    requires Inv(l) && (step.NoMore? || step.SetMax?)
    ensures Inv(Next(l, step))
  {
    assert TaskInv(l, l.tasks);
    MovesKeep(l, Next(l, step), l.tasks);
  }

  lemma NextInv(l: Launcher, step: Step)
    requires Inv(l)
    ensures Inv(Next(l, step))
  {
    match step
    case Add =>
      AddTasks(l);
      AddCount(l);
      assert forall u :: u in l.threads ==> u < l.next;
      hide TasksInv, CountInv;
      EndKept(l, Next(l, Add));
    case NoMore => SettingInv(l, step);
    case SetMax(_) => SettingInv(l, step);
    case Advance(t, yes) =>
      hide TasksInv, CountInv, EndInv, Move;
      if t in l.threads {
        MoveTasks(l, t, yes);
        MoveCount(l, t, yes);
        EndStep(l, t, yes);
      }
  }

  lemma InitInv(max: nat)
    ensures Inv(Init(max))
  {}

  lemma {:induction false} ExecuteInv(max: nat, steps: seq<Step>)
    ensures Inv(Execute(max, steps))
  {
    hide Inv, Next;
    if steps == [] {
      InitInv(max);
    } else {
      ExecuteInv(max, steps[..|steps| - 1]);
      NextInv(Execute(max, steps[..|steps| - 1]), steps[|steps| - 1]);
    }
  }

  lemma OneMore(max: nat, steps: seq<Step>, step: Step)
    ensures Execute(max, steps + [step]) == Next(Execute(max, steps), step)
  {
    assert (steps + [step])[..|steps|] == steps;
  }

  lemma LastOf(max: nat, steps: seq<Step>, more: seq<Step>)
    ensures more != [] ==>
      var n := |more| - 1; Execute(max, steps + more) == Next(Execute(max, steps + more[..n]), more[n])
    ensures more == [] ==> steps + more == steps
  {
    hide Next;
    if more == [] {
      assert steps + more == steps;
    } else {
      assert (steps + more)[..|steps + more| - 1] == steps + more[..|more| - 1];
    }
  }

  // ----- what holds under every interleaving

  ghost predicate OwnedBy(l: Launcher, t: nat, task: nat) { t in l.threads && Owns(l.threads[t], task) }

  /**
   A task object has exactly one owner: one thread, the queue, or nobody once it has been deleted. So it
   is deleted at most once and never run, queued or relaunched afterwards.
   */
  lemma Ownership(max: nat, steps: seq<Step>, task: nat)
    ensures var l := Execute(max, steps);
      task < l.tasks ==>
        && (task in l.q || task in l.deleted || exists t :: OwnedBy(l, t, task))
        && (task in l.q ==> task !in l.deleted && forall t :: !OwnedBy(l, t, task))
        && (task in l.deleted ==> forall t :: !OwnedBy(l, t, task))
        && (forall t, u :: OwnedBy(l, t, task) && OwnedBy(l, u, task) ==> t == u)
    ensures var l := Execute(max, steps); Distinct(l.q) && Distinct(l.deleted)
  {
    ExecuteInv(max, steps);
    var l := Execute(max, steps);
    hide Execute, CountInv, EndInv;
    assert TaskInv(l, task);
    if task < l.tasks && l.owner[task].Held? {
      assert OwnedBy(l, l.owner[task].thread, task);
    }
  }

  /** A task that has been deleted stays deleted, whatever happens next. */
  lemma {:induction false} DeletedForGood(max: nat, steps: seq<Step>, more: seq<Step>, task: nat)
    requires task in Execute(max, steps).deleted
    ensures task in Execute(max, steps + more).deleted
  {
    hide Execute, Next;
    LastOf(max, steps, more);
    if more != [] {
      var n := |more| - 1;
      DeletedForGood(max, steps, more[..n], task);
      StaysDeleted(Execute(max, steps + more[..n]), more[n], task);
    }
  }

  lemma StaysDeleted(l: Launcher, step: Step, task: nat)
    requires task in l.deleted
    ensures task in Next(l, step).deleted
  {
    if step.Advance? && step.t in l.threads && (InLoop(l.threads[step.t]) || InTest(l.threads[step.t])) {
      OtherStill(l, step.t, step.yes);
      hide Move;
    } else {
      hide MoveLoop, MoveTest;
    }
  }

  /** A step that only looks, or takes a task off the queue. */
  ghost predicate Still(l: Launcher, t: nat, m: Launcher)
    requires t in l.threads
  {
    && m.max == l.max && m.launched == l.launched && m.finished == l.finished && m.deleted == l.deleted
    && m.noMore == l.noMore && m.allFinished == l.allFinished && m.callbacks == l.callbacks
    && (l.q == [] ==> m.q == []) && (m.q != l.q ==> l.threads[t].Entering?)
  }

  lemma LoopStill(l: Launcher, t: nat, yes: bool)
    requires t in l.threads && InLoop(l.threads[t])
    ensures Still(l, t, MoveLoop(l, t, yes))
  {
    hide Counter, Difference;
  }

  lemma TestStill(l: Launcher, t: nat, yes: bool)
    requires t in l.threads && InTest(l.threads[t])
    ensures Still(l, t, MoveTest(l, t, yes))
  {
    hide Counter;
  }

  lemma OtherStill(l: Launcher, t: nat, yes: bool)
    requires t in l.threads && (InLoop(l.threads[t]) || InTest(l.threads[t]))
    ensures Still(l, t, Move(l, t, yes))
  {
    hide MoveOwner, MoveLoop, MoveTest, MoveEnd;
    if InLoop(l.threads[t]) {
      LoopStill(l, t, yes);
      hide Still;
    } else {
      TestStill(l, t, yes);
      hide Still;
    }
  }

  /** Jobs counted as finished never outnumber launches; what is between is on its way through the pool. */
  lemma Counters(max: nat, steps: seq<Step>)
    ensures var l := Execute(max, steps);
      l.finished <= l.launched && l.launched - l.finished == Total(l.threads, l.next)
  {
    ExecuteInv(max, steps);
    hide Execute, TasksInv, EndInv;
  }

  /** The finish callback is called at most once, only after `setNoMoreTasks`, and by one thread only. */
  lemma CalledOnce(max: nat, steps: seq<Step>)
    ensures var l := Execute(max, steps);
      && l.callbacks <= 1 && (l.callbacks == 1 ==> l.noMore)
      && (forall t :: t in l.threads && l.threads[t].Calling? ==> l.callbacks == 0)
      && (forall t, u :: t in l.threads && u in l.threads && l.threads[t].Calling? && l.threads[u].Calling? ==> t == u)
  {
    ExecuteInv(max, steps);
    hide Execute, TasksInv, CountInv;
  }

  // ----- when the lock is kept

  /** The thread that holds the lock has returned. */
  ghost predicate Kept(l: Launcher) { l.lock.LockedBy? && l.lock.thread !in l.threads }

  /** The thread that has got the lock returns without releasing it exactly if the callback has had its turn. */
  lemma KeepsLock(max: nat, steps: seq<Step>, t: nat, yes: bool)
    requires var l := Execute(max, steps); t in l.threads && l.threads[t].Locked?
    ensures Kept(Execute(max, steps + [Advance(t, yes)])) <==> Execute(max, steps).allFinished
  {
    ExecuteInv(max, steps);
    OneMore(max, steps, Advance(t, yes));
    hide Execute, TasksInv, CountInv;
  }

  /** In every run, the lock's holder is gone exactly when a second thread has got the lock and gone on. */
  lemma LockKept(max: nat, steps: seq<Step>)
    ensures var l := Execute(max, steps);
      && l.acquired <= 2
      && (Kept(l) <==> l.acquired == 2 && forall t :: t in l.threads ==> !l.threads[t].Locked?)
      && (l.acquired == 2 ==> l.lock.LockedBy?)
  {
    ExecuteInv(max, steps);
    hide Execute, TasksInv, CountInv;
  }

  /** Once that has happened the lock is never free again. */
  lemma {:induction false} KeptForGood(max: nat, steps: seq<Step>, more: seq<Step>)
    requires Execute(max, steps).acquired == 2
    ensures var l := Execute(max, steps + more); l.acquired == 2 && l.lock == Execute(max, steps).lock
  {
    hide Execute, Next, TasksInv, CountInv, EndInv;
    LastOf(max, steps, more);
    if more != [] {
      var n := |more| - 1;
      KeptForGood(max, steps, more[..n]);
      ExecuteInv(max, steps + more[..n]);
      StaysKept(Execute(max, steps + more[..n]), more[n]);
    }
  }

  lemma StaysKept(l: Launcher, step: Step)
    requires EndInv(l) && l.acquired == 2
    ensures var m := Next(l, step); m.acquired == 2 && m.lock == l.lock
  {
    if step.Advance? && step.t in l.threads && !l.threads[step.t].Even? && !Closing(l.threads[step.t]) {
      OutsideEnd(l, step.t, step.yes);
      hide Move, EndInv;
    }
  }

  // ----- runs

  lemma Go(max: nat, steps: seq<Step>, step: Step) returns (more: seq<Step>)
    ensures more == steps + [step] && Execute(max, more) == Next(Execute(max, steps), step)
  {
    more := steps + [step];
    OneMore(max, steps, step);
  }

  /** The two counters, read one after the other while they do not change. */
  lemma CountersRead(l: Launcher, launchedFirst: bool)
    ensures Difference(launchedFirst, Counter(l, launchedFirst), Counter(l, !launchedFirst)) ==
      (l.launched - l.finished) % WORDS
  {}

  /** A thread in `checkLaunch` compares the counters as they are. */
  lemma Looks(max: nat, steps: seq<Step>, t: nat) returns (more: seq<Step>)
    requires var l := Execute(max, steps); t in l.threads && l.threads[t].Checking?
    ensures var l := Execute(max, steps);
      Execute(max, more) ==
        if (l.launched - l.finished) % WORDS < l.max then Put(l, t, Entering(l.threads[t].after))
        else Resume(l, t, l.threads[t].after)
  {
    hide Execute, Next;
    LooksNext(Execute(max, steps), t);
    more := Go(max, steps, Advance(t, true));
    more := Go(max, more, Advance(t, true));
  }

  lemma PutAgain(l: Launcher, t: nat, a: Thread)
    ensures forall b :: Put(Put(l, t, a), t, b) == Put(l, t, b)
    ensures End(Put(l, t, a), t) == End(l, t)
  {
    assert forall b :: Put(Put(l, t, a), t, b).threads == Put(l, t, b).threads;
    assert l.threads[t := a] - {t} == l.threads - {t};
  }

  lemma LooksNext(l: Launcher, t: nat)
    requires t in l.threads && l.threads[t].Checking?
    ensures Next(Next(l, Advance(t, true)), Advance(t, true)) ==
      if (l.launched - l.finished) % WORDS < l.max then Put(l, t, Entering(l.threads[t].after))
      else Resume(l, t, l.threads[t].after)
  {
    CountersRead(l, true);
    var after, first := l.threads[t].after, Counter(l, true);
    hide Difference;
    assert Next(l, Advance(t, true)) == Put(l, t, Measuring(after, true, first)) by { hide Counter; }
    hide MoveOwner, MoveTest, MoveEnd;
    PutAgain(l, t, Measuring(after, true, first));
  }

  /** It finds nothing in an empty queue, whether there is room or not. */
  lemma LooksIdle(max: nat, steps: seq<Step>, t: nat) returns (more: seq<Step>)
    requires var l := Execute(max, steps); t in l.threads && l.threads[t].Checking? && l.q == []
    ensures var l := Execute(max, steps); Execute(max, more) == Resume(l, t, l.threads[t].after)
  {
    var l := Execute(max, steps);
    hide Execute, Next;
    more := Looks(max, steps, t);
    if (l.launched - l.finished) % WORDS < l.max {
      LeavesNext(l, t, l.threads[t].after);
      more := Go(max, more, Advance(t, true));
    }
  }

  lemma LeavesNext(l: Launcher, t: nat, after: After)
    requires t in l.threads && l.q == []
    ensures Next(Put(l, t, Entering(after)), Advance(t, true)) == Resume(l, t, after)
  {
    hide MoveOwner, MoveTest, MoveEnd, Counter, Difference;
    PutAgain(l, t, Entering(after));
  }

  /** It launches the only task of the queue, if there is room, and is back at the test. */
  lemma Launches(max: nat, steps: seq<Step>, t: nat) returns (more: seq<Step>)
    requires var l := Execute(max, steps);
      && t in l.threads && l.threads[t].Checking? && t < l.next && |l.q| == 1
      && l.launched - l.finished < l.max && l.finished <= l.launched
    ensures var l := Execute(max, steps);
      Execute(max, more) == l.(
        q := [], threads := l.threads[l.next := Pooled(l.q[0])], next := l.next + 1,
        launched := l.launched + 1, owner := l.owner[l.q[0] := Held(l.next)])
  {
    var l := Execute(max, steps);
    Remainder(l.launched - l.finished);
    hide Next, Execute;
    LaunchesNext(l, t);
    more := Looks(max, steps, t);
    more := Go(max, more, Advance(t, true));
    more := Go(max, more, Advance(t, true));
    more := Go(max, more, Advance(t, true));
  }

  lemma Remainder(n: nat)
    ensures n % WORDS <= n
  {}

  lemma LaunchesNext(l: Launcher, t: nat)
    requires t in l.threads && l.threads[t].Checking? && t < l.next && |l.q| == 1
    ensures var task, after := l.q[0], l.threads[t].after;
      && var a := Next(Put(l, t, Entering(after)), Advance(t, true));
      && a == l.(q := [], threads := l.threads[t := Carrying(task, after)], owner := l.owner[task := Held(t)])
      && var b := Next(a, Advance(t, true));
      && b == a.(threads := l.threads[t := Launching(task, after)], launched := l.launched + 1)
      && var c := Next(b, Advance(t, true));
      && c == b.(
           threads := l.threads[l.next := Pooled(task)], next := l.next + 1, owner := l.owner[task := Held(l.next)])
  {
    hide MoveTest, MoveEnd, Counter, Difference;
  }

  /** A job that does not relaunch its task, until it is counted. */
  lemma Counts(max: nat, steps: seq<Step>, t: nat) returns (more: seq<Step>)
    requires var l := Execute(max, steps); t in l.threads && l.threads[t].Pooled?
    ensures var l := Execute(max, steps);
      Execute(max, more) == l.(
        threads := l.threads[t := Checking(Finish)], finished := l.finished + 1,
        owner := l.owner[l.threads[t].task := Deleted], deleted := l.deleted + [l.threads[t].task])
  {
    hide Next, Execute;
    CountsNext(Execute(max, steps), t);
    more := Go(max, steps, Advance(t, false));
    more := Go(max, more, Advance(t, false));
    more := Go(max, more, Advance(t, false));
  }

  lemma CountsNext(l: Launcher, t: nat)
    requires t in l.threads && l.threads[t].Pooled?
    ensures var task := l.threads[t].task;
      && var a := Next(l, Advance(t, false));
      && a == l.(threads := l.threads[t := Running(task)])
      && var b := Next(a, Advance(t, false));
      && b == l.(
           threads := l.threads[t := Counting], owner := l.owner[task := Deleted], deleted := l.deleted + [task])
      && Next(b, Advance(t, false)) == b.(threads := l.threads[t := Checking(Finish)], finished := l.finished + 1)
  {
    hide MoveTest, MoveEnd, MoveLoop;
  }

  /** The same up to its last check, while the queue is empty. */
  lemma Finishes(max: nat, steps: seq<Step>, t: nat) returns (more: seq<Step>)
    requires var l := Execute(max, steps); t in l.threads && l.threads[t].Pooled? && l.q == []
    ensures var l := Execute(max, steps);
      Execute(max, more) == l.(
        threads := l.threads[t := Asking], finished := l.finished + 1,
        owner := l.owner[l.threads[t].task := Deleted], deleted := l.deleted + [l.threads[t].task])
  {
    ghost var l := Execute(max, steps);
    hide Execute;
    more := Counts(max, steps, t);
    more := LooksIdle(max, more, t);
    assert l.threads[t := Checking(Finish)][t := Asking] == l.threads[t := Asking];
  }

  /** A call of `addTask` from its beginning to its end, with nothing queued and room for the task. */
  lemma Added(max: nat, steps: seq<Step>) returns (more: seq<Step>)
    requires var l := Execute(max, steps);
      && l.q == [] && l.finished <= l.launched && l.launched - l.finished < l.max
      && forall t :: t in l.threads ==> t < l.next
    ensures var l := Execute(max, steps);
      Execute(max, more) == l.(
        threads := l.threads[l.next + 1 := Pooled(l.tasks)], next := l.next + 2, tasks := l.tasks + 1,
        launched := l.launched + 1, owner := l.owner[l.tasks := Held(l.next + 1)])
  {
    ghost var l := Execute(max, steps);
    hide Next, Execute;
    AddsNext(l);
    more := Go(max, steps, Add);
    more := Go(max, more, Advance(l.next, true));
    more := Launches(max, more, l.next);
    more := LooksIdle(max, more, l.next);
    assert l.threads[l.next := Checking(Return)][l.next + 1 := Pooled(l.tasks)] - {l.next} ==
           l.threads[l.next + 1 := Pooled(l.tasks)];
  }

  lemma AddsNext(l: Launcher)
    requires l.q == []
    ensures var a := Next(l, Add);
      && a == l.(
           threads := l.threads[l.next := Adding(l.tasks, Return)], next := l.next + 1, tasks := l.tasks + 1,
           owner := l.owner[l.tasks := Held(l.next)])
      && Next(a, Advance(l.next, true)) == a.(
           threads := l.threads[l.next := Checking(Return)], q := [l.tasks], owner := l.owner[l.tasks := Queued])
  {
    hide MoveTest, MoveEnd, MoveLoop;
  }

  /** One job is done but for its last check, before any `setNoMoreTasks`. */
  lemma OneChecks(max: nat) returns (steps: seq<Step>)
    requires max > 0
    ensures Execute(max, steps) == Init(max).(
      threads := map[1 := Asking], next := 2, tasks := 1, launched := 1, finished := 1,
      owner := map[0 := Deleted], deleted := [0])
  {
    NoSteps(max);
    hide Execute;
    steps := Added(max, []);
    assert Execute(max, steps).threads == map[1 := Pooled(0)];
    steps := Finishes(max, steps, 1);
    assert map[0 := Held(1)][0 := Deleted] == map[0 := Deleted];
  }

  lemma NoSteps(max: nat)
    ensures Execute(max, []) == Init(max)
  {}

  /** And there are no more tasks behind a second one, which is in the pool. */
  lemma LastJob(max: nat) returns (steps: seq<Step>)
    requires max > 0
    ensures Execute(max, steps) == Init(max).(
      threads := map[1 := Asking, 3 := Pooled(1)], next := 4, tasks := 2, launched := 2, finished := 1, noMore := true,
      owner := map[0 := Deleted, 1 := Held(3)], deleted := [0])
  {
    hide Execute;
    steps := OneChecks(max);
    steps := Added(max, steps);
    steps := Go(max, steps, NoMore);
  }

  /** The test of `checkFinished` holds for a thread, up to the lock. */
  lemma Passes(max: nat, steps: seq<Step>, t: nat) returns (more: seq<Step>)
    requires var l := Execute(max, steps);
      t in l.threads && l.threads[t].Asking? && l.launched == l.finished && l.noMore && l.q == [] && l.lock == Unlocked
    ensures steps <= more
    ensures var l := Execute(max, steps);
      Execute(max, more) == l.(threads := l.threads[t := Locked], lock := LockedBy(t), acquired := l.acquired + 1)
  {
    ghost var l := Execute(max, steps);
    hide Next, Execute;
    EvenNext(l, t);
    PassesNext(l, t);
    more := Go(max, steps, Advance(t, true));
    more := Go(max, more, Advance(t, true));
    more := Go(max, more, Advance(t, true));
    more := Go(max, more, Advance(t, true));
    more := Go(max, more, Advance(t, true));
  }

  lemma EvenNext(l: Launcher, t: nat)
    requires t in l.threads && l.threads[t].Asking? && l.launched == l.finished
    ensures Next(Next(l, Advance(t, true)), Advance(t, true)) == l.(threads := l.threads[t := Even])
  {
    hide MoveOwner, MoveEnd, MoveLoop, Difference;
    assert l.threads[t := Matching(true, Counter(l, true))][t := Even] == l.threads[t := Even];
  }

  lemma PassesNext(l: Launcher, t: nat)
    requires t in l.threads && l.noMore && l.q == [] && l.lock == Unlocked
    ensures var a := Next(l.(threads := l.threads[t := Even]), Advance(t, true));
      && a == l.(threads := l.threads[t := Ended])
      && var b := Next(a, Advance(t, true));
      && b == l.(threads := l.threads[t := Trying])
      && Next(b, Advance(t, true)) ==
           l.(threads := l.threads[t := Locked], lock := LockedBy(t), acquired := l.acquired + 1)
  {
    hide MoveOwner, MoveEnd, MoveLoop, Counter;
    assert l.threads[t := Even][t := Ended] == l.threads[t := Ended];
    assert l.threads[t := Ended][t := Trying] == l.threads[t := Trying];
    assert l.threads[t := Trying][t := Locked] == l.threads[t := Locked];
  }

  /**
   How the lock comes to be kept, whatever the limit: two tasks have been run, both jobs are at their last
   check, and the test passes for both of them.
   */
  lemma BothPass(max: nat) returns (asked: seq<Step>, steps: seq<Step>)
    requires max > 0
    ensures var l := Execute(max, asked);
      && l.threads == map[1 := Asking, 3 := Asking] && l.tasks == 2 && l.deleted == [0, 1] && l.acquired == 0
      && l.launched == 2 && l.finished == 2 && l.noMore && l.q == []
    ensures asked <= steps
    ensures var l := Execute(max, steps);
      Kept(l) && l.threads == map[] && l.callbacks == 1 && l.launched == 2 && l.finished == 2 && l.q == []
  {
    hide Execute, Next;
    asked := LastJob(max);
    asked := Finishes(max, asked, 3);
    assert Execute(max, asked).threads == map[1 := Asking, 3 := Asking];
    steps := Passes(max, asked, 1);
    CallsNext(Execute(max, steps), 1);
    steps := Go(max, steps, Advance(1, true));
    steps := Go(max, steps, Advance(1, true));
    steps := Go(max, steps, Advance(1, true));
    assert Execute(max, steps).threads == map[3 := Asking];
    steps := Passes(max, steps, 3);
    KeepsNext(Execute(max, steps), 3);
    steps := Go(max, steps, Advance(3, true));
  }

  /** The callback, and the end of the first thread that has got the lock. */
  lemma CallsNext(l: Launcher, t: nat)
    requires t in l.threads && l.threads[t].Locked? && !l.allFinished
    ensures var a := Next(l, Advance(t, true));
      && a == l.(threads := l.threads[t := Calling], allFinished := true)
      && var b := Next(a, Advance(t, true));
      && b == a.(threads := l.threads[t := Unlocking], callbacks := l.callbacks + 1)
      && Next(b, Advance(t, true)) == b.(threads := l.threads - {t}, lock := Unlocked)
  {
    hide MoveOwner, MoveTest, MoveLoop;
  }

  lemma KeepsNext(l: Launcher, t: nat)
    requires t in l.threads && l.threads[t].Locked? && l.allFinished
    ensures Next(l, Advance(t, true)) == l.(threads := l.threads - {t})
  {
    hide MoveOwner, MoveTest, MoveLoop;
  }

  // ----- what the finish test says

  ghost predicate AllDeleted(l: Launcher) { forall task: nat :: task < l.tasks ==> task in l.deleted }

  lemma {:induction false} TotalHas(threads: map<nat, Thread>, n: nat, t: nat)
    requires t < n && t in threads
    ensures Owed(threads[t]) <= Total(threads, n)
  {
    if t < n - 1 {
      TotalHas(threads, n - 1, t);
    }
  }

  /**
   In a state whose counters are equal and whose queue is empty, every task has been run for good exactly
   if no thread is in `addTask` before its push, or has taken a task off the queue without having counted
   it as launched.
   */
  lemma TestSays(max: nat, steps: seq<Step>)
    requires var l := Execute(max, steps); l.launched == l.finished && l.q == []
    ensures var l := Execute(max, steps);
      AllDeleted(l) <==> forall t :: t in l.threads ==> !l.threads[t].Adding? && !l.threads[t].Carrying?
  {
    var l := Execute(max, steps);
    ExecuteInv(max, steps);
    hide Execute;
    forall task: nat | task < l.tasks && task !in l.deleted
      ensures exists t :: t in l.threads && (l.threads[t].Adding? || l.threads[t].Carrying?)
    {
      assert TaskInv(l, task);
      var t := l.owner[task].thread;
      TotalHas(l.threads, l.next, t);
    }
    forall t | t in l.threads && (l.threads[t].Adding? || l.threads[t].Carrying?)
      ensures l.threads[t].task < l.tasks && l.threads[t].task !in l.deleted
    {
      assert TaskInv(l, l.threads[t].task) && Owns(l.threads[t], l.threads[t].task);
    }
  }

  /**
   The callback can come too early: with at most one task at a time, the first job is at its last check
   while the second one has put its task back and has just taken it off the queue again.
   */
  lemma CalledEarly() returns (steps: seq<Step>)
    ensures var l := Execute(1, steps);
      && l.tasks == 2 && l.callbacks == 1 && l.launched == 2 && l.finished == 2 && l.q == []
      && OwnedBy(l, 3, 1) && 1 !in l.deleted
  {
    hide Execute, Next;
    steps := LastJob(1);
    RelaunchesNext(Execute(1, steps), 3);
    steps := Go(1, steps, Advance(3, true));
    steps := Go(1, steps, Advance(3, true));
    steps := Go(1, steps, Advance(3, true));
    steps := TakesAgain(1, steps, 3);
    assert Execute(1, steps).threads == map[1 := Asking, 3 := Carrying(1, Finish)];
    steps := Passes(1, steps, 1);
    CallsNext(Execute(1, steps), 1);
    steps := Go(1, steps, Advance(1, true));
    steps := Go(1, steps, Advance(1, true));
  }

  /** A job that asks to be relaunched, up to the test of `checkLaunch`. */
  lemma RelaunchesNext(l: Launcher, t: nat)
    requires t in l.threads && l.threads[t].Pooled? && l.q == []
    ensures var task := l.threads[t].task;
      && var a := Next(l, Advance(t, true));
      && a == l.(threads := l.threads[t := Running(task)])
      && var b := Next(a, Advance(t, true));
      && b == l.(threads := l.threads[t := Adding(task, Count)])
      && Next(b, Advance(t, true)) ==
           l.(threads := l.threads[t := Checking(Count)], q := [task], owner := l.owner[task := Queued])
  {
    hide MoveEnd, MoveTest, MoveLoop;
  }

  /** There is no room for its task before it is counted, and then there is. */
  lemma TakesAgain(max: nat, steps: seq<Step>, t: nat) returns (more: seq<Step>)
    requires var l := Execute(max, steps);
      && t in l.threads && l.threads[t] == Checking(Count) && |l.q| == 1
      && l.max == 1 && l.launched == l.finished + 1
    ensures var l := Execute(max, steps);
      Execute(max, more) == l.(
        threads := l.threads[t := Carrying(l.q[0], Finish)], q := [], finished := l.finished + 1,
        owner := l.owner[l.q[0] := Held(t)])
  {
    ghost var l := Execute(max, steps);
    hide Execute, Next;
    more := Looks(max, steps, t);
    CountedNext(l, t);
    more := Go(max, more, Advance(t, true));
    ghost var m := Execute(max, more);
    more := Looks(max, more, t);
    TakesNext(m, t);
    more := Go(max, more, Advance(t, true));
    assert l.threads[t := Checking(Finish)][t := Carrying(l.q[0], Finish)] ==
           l.threads[t := Carrying(l.q[0], Finish)];
  }

  lemma CountedNext(l: Launcher, t: nat)
    requires t in l.threads
    ensures Next(Put(l, t, Counting), Advance(t, true)) ==
      l.(threads := l.threads[t := Checking(Finish)], finished := l.finished + 1)
  {
    hide MoveOwner, MoveEnd, MoveTest, MoveLoop;
    assert l.threads[t := Counting][t := Checking(Finish)] == l.threads[t := Checking(Finish)];
  }

  lemma TakesNext(l: Launcher, t: nat)
    requires t in l.threads && l.threads[t] == Checking(Finish) && |l.q| == 1
    ensures Next(Put(l, t, Entering(Finish)), Advance(t, true)) ==
      l.(threads := l.threads[t := Carrying(l.q[0], Finish)], q := [], owner := l.owner[l.q[0] := Held(t)])
  {
    hide MoveOwner, MoveEnd, MoveTest, Counter;
    assert l.threads[t := Entering(Finish)][t := Carrying(l.q[0], Finish)] ==
           l.threads[t := Carrying(l.q[0], Finish)];
  }

  // ----- nothing is left behind

  /** The counter read first has not changed since. */
  predicate Fresh(l: Launcher, th: Thread)
    requires th.Measuring? || th.Matching?
  {
    th.first == Counter(l, th.launchedFirst)
  }

  /** A thread that looks at the queue next, if the counters leave room. */
  predicate Watches(l: Launcher, th: Thread) {
    th.Checking? || th.Entering? || th.Carrying? || (th.Measuring? && Fresh(l, th))
  }

  ghost predicate SomeWatches(l: Launcher) { exists t :: t in l.threads && Watches(l, l.threads[t]) }

  /** While tasks are queued, some job is still to be counted or some thread is to look there. */
  ghost predicate QueueInv(l: Launcher) { l.q != [] ==> l.launched != l.finished || SomeWatches(l) }

  /** Other threads are left as they are. */
  lemma OthersStay(l: Launcher, t: nat, yes: bool, u: nat)
    requires t in l.threads && u in l.threads && u != t && u != l.next
    ensures u in Move(l, t, yes).threads && Move(l, t, yes).threads[u] == l.threads[u]
  {
    if OwnsSome(l.threads[t]) {
      OwnerLeaves(l, t, yes, u);
      hide MoveOwner;
    } else {
      OtherOwed(l, t, yes);
      hide Move;
    }
  }

  lemma OwnerLeaves(l: Launcher, t: nat, yes: bool, u: nat)
    requires t in l.threads && u in l.threads && u != t && u != l.next && OwnsSome(l.threads[t])
    ensures u in MoveOwner(l, t, yes).threads && MoveOwner(l, t, yes).threads[u] == l.threads[u]
  {}

  /** A thread that finds no room, though the counters have not changed, leaves a job to be counted. */
  lemma LoopWatches(l: Launcher, t: nat, yes: bool)
    requires t in l.threads && InLoop(l.threads[t]) && Watches(l, l.threads[t]) && l.max > 0
    ensures var m := MoveLoop(l, t, yes);
      && m.launched == l.launched && m.finished == l.finished
      && (m.q != [] ==> m.launched != m.finished || (t in m.threads && Watches(m, m.threads[t])))
  {
    if l.threads[t].Measuring? {
      CountersRead(l, l.threads[t].launchedFirst);
      assert l.launched == l.finished ==> (l.launched - l.finished) % WORDS == 0;
    }
    hide Difference;
  }

  /** The steps of a thread that changes a counter or the queue. */
  lemma OwnerWatches(l: Launcher, t: nat, yes: bool)
    requires CountInv(l) && t in l.threads && (OwnsSome(l.threads[t]) || l.threads[t].Counting?)
    ensures var m := Move(l, t, yes); m.launched != m.finished || (t in m.threads && Watches(m, m.threads[t]))
  {
    MoveCount(l, t, yes);
    var m := Move(l, t, yes);
    hide MoveLoop, MoveTest, MoveEnd, Total;
    if t in m.threads && !Watches(m, m.threads[t]) {
      TotalHas(m.threads, m.next, t);
    }
  }

  /** The steps under the lock leave counters and queue alone. */
  lemma EndStill(l: Launcher, t: nat)
    requires t in l.threads && InEnd(l.threads[t])
    ensures var m := MoveEnd(l, t);
      m.launched == l.launched && m.finished == l.finished && m.max == l.max && m.q == l.q
  {}

  lemma QueueStep(l: Launcher, t: nat, yes: bool)
    requires CountInv(l) && QueueInv(l) && l.max > 0 && t in l.threads
    ensures QueueInv(Move(l, t, yes))
  {
    hide Move, MoveLoop, CountInv, Counter;
    var m := Move(l, t, yes);
    if OwnsSome(l.threads[t]) || l.threads[t].Counting? {
      OwnerWatches(l, t, yes);
    } else {
      NotOwner(l, t, yes);
      if m.q != [] && l.launched == l.finished {
        var u :| u in l.threads && Watches(l, l.threads[u]);
        if u == t {
          LoopMoves(l, t, yes);
          LoopWatches(l, t, yes);
        } else {
          Below(l, u);
          OthersStay(l, t, yes, u);
          SameCounter(l, m);
          assert u in m.threads && Watches(m, m.threads[u]);
        }
      }
    }
  }

  lemma NotOwner(l: Launcher, t: nat, yes: bool)
    requires t in l.threads && !OwnsSome(l.threads[t]) && !l.threads[t].Counting?
    ensures var m := Move(l, t, yes);
      && m.launched == l.launched && m.finished == l.finished && m.max == l.max
      && (l.q == [] ==> m.q == []) && (m.q != l.q ==> l.threads[t].Entering?)
  {
    if InEnd(l.threads[t]) {
      EndStill(l, t);
      hide MoveOwner, MoveLoop, MoveTest, MoveEnd;
    } else {
      OtherStill(l, t, yes);
      hide Move;
    }
  }

  lemma LoopMoves(l: Launcher, t: nat, yes: bool)
    requires t in l.threads && InLoop(l.threads[t])
    ensures Move(l, t, yes) == MoveLoop(l, t, yes)
  {
    hide MoveLoop;
  }

  lemma Below(l: Launcher, u: nat)
    requires CountInv(l) && u in l.threads
    ensures u < l.next
  {}

  lemma SameCounter(l: Launcher, m: Launcher)
    requires l.launched == m.launched && l.finished == m.finished
    ensures forall o :: Counter(l, o) == Counter(m, o)
  {}

  /** The limit is never 0. */
  predicate Limited(max: nat, steps: seq<Step>) {
    max > 0 && forall i :: 0 <= i < |steps| && steps[i].SetMax? ==> steps[i].max > 0
  }

  lemma {:induction false} Queues(max: nat, steps: seq<Step>)
    requires Limited(max, steps)
    ensures QueueInv(Execute(max, steps)) && Execute(max, steps).max > 0
  {
    if steps != [] {
      var n := |steps| - 1;
      var l := Execute(max, steps[..n]);
      ExecuteInv(max, steps[..n]);
      Queues(max, steps[..n]);
      hide TasksInv, EndInv, CountInv, Counter, Move;
      match steps[n]
      case Advance(t, yes) =>
        if t in l.threads {
          QueueStep(l, t, yes);
          SameMax(l, t, yes);
        }
      case Add => AddWatches(l);
      case NoMore => SameWatches(l, Execute(max, steps));
      case SetMax(_) => SameWatches(l, Execute(max, steps));
    }
  }

  lemma SameMax(l: Launcher, t: nat, yes: bool)
    requires t in l.threads
    ensures Move(l, t, yes).max == l.max
  {
    if OwnsSome(l.threads[t]) || l.threads[t].Counting? {
      hide MoveLoop, MoveTest, MoveEnd;
    } else {
      NotOwner(l, t, yes);
      hide Move;
    }
  }

  lemma AddWatches(l: Launcher)
    requires CountInv(l) && QueueInv(l)
    ensures QueueInv(Next(l, Add))
  {
    var m := Next(l, Add);
    if l.q != [] && l.launched == l.finished {
      var u :| u in l.threads && Watches(l, l.threads[u]);
      assert u in m.threads && Watches(m, m.threads[u]);
    }
  }

  lemma SameWatches(l: Launcher, m: Launcher)
    requires QueueInv(l) && l.threads == m.threads && l.q == m.q && l.launched == m.launched && l.finished == m.finished
    ensures QueueInv(m)
  {
    if l.q != [] && l.launched == l.finished {
      var u :| u in l.threads && Watches(l, l.threads[u]);
      assert u in m.threads && Watches(m, m.threads[u]);
    }
  }

  lemma {:induction false} NoneOwed(threads: map<nat, Thread>, n: nat)
    requires forall t :: t in threads ==> Owed(threads[t]) == 0
    ensures Total(threads, n) == 0
  {
    if n > 0 {
      NoneOwed(threads, n - 1);
    }
  }

  /** When all callers and jobs have returned, every task has been run for good. */
  lemma NothingLeft(max: nat, steps: seq<Step>)
    requires Limited(max, steps) && Execute(max, steps).threads == map[]
    ensures Execute(max, steps).q == [] && AllDeleted(Execute(max, steps))
  {
    var l := Execute(max, steps);
    ExecuteInv(max, steps);
    Queues(max, steps);
    NoneOwed(l.threads, l.next);
    hide Execute;
    forall task: nat | task < l.tasks
      ensures task in l.deleted
    {
      assert TaskInv(l, task);
    }
  }

  /** With a limit of 0 a task is left. */
  lemma NoRoom() returns (steps: seq<Step>)
    ensures var l := Execute(0, steps); l.threads == map[] && l.q == [0] && l.tasks == 1 && l.deleted == []
  {
    NoSteps(0);
    hide Execute, Next;
    AddsNext(Init(0));
    steps := Go(0, [], Add);
    steps := Go(0, steps, Advance(0, true));
    steps := Looks(0, steps, 0);
    assert Execute(0, steps).threads == map[];
  }

  // ----- when the callback is called

  /** A thread that is to make the last check, or stands for one that is, or is about to call the callback. */
  predicate Checks(l: Launcher, th: Thread) {
    || OwnsSome(th) || th.Counting? || (InLoop(th) && !th.after.Return?)
    || (InTest(th) && (th.Matching? ==> Fresh(l, th)))
    || th.Calling? || (th.Locked? && !l.allFinished)
  }

  ghost predicate SomeChecks(l: Launcher) { exists t :: t in l.threads && Checks(l, l.threads[t]) }

  ghost predicate WillCall(l: Launcher) { l.callbacks == 1 || l.q != [] || SomeChecks(l) }

  lemma {:induction false} SomeOwed(threads: map<nat, Thread>, n: nat) returns (t: nat)
    requires Total(threads, n) > 0
    ensures t in threads && Owed(threads[t]) > 0
  {
    if n - 1 in threads && Owed(threads[n - 1]) > 0 {
      t := n - 1;
    } else {
      t := SomeOwed(threads, n - 1);
    }
  }

  /** What is owed is checked for. */
  lemma OwedChecks(l: Launcher, th: Thread)
    requires Owed(th) > 0
    ensures Checks(l, th)
  {}

  /** While some job is to be counted, some thread is to check. */
  lemma UnevenChecks(l: Launcher)
    requires CountInv(l) && l.launched != l.finished
    ensures SomeChecks(l)
  {
    var u := SomeOwed(l.threads, l.next);
    OwedChecks(l, l.threads[u]);
  }

  /** The steps of owners and of the loop. */
  lemma OwnerChecks(l: Launcher, t: nat, yes: bool)
    requires t in l.threads && t < l.next && (OwnsSome(l.threads[t]) || l.threads[t].Counting?)
    ensures var m := Move(l, t, yes); m.q != [] || SomeChecks(m)
  {
    hide MoveLoop, MoveTest, MoveEnd;
    var m := Move(l, t, yes);
    assert l.threads[t].Launching? ==> l.next in m.threads && Checks(m, m.threads[l.next]);
    assert !l.threads[t].Launching? && !l.threads[t].Adding? ==> t in m.threads && Checks(m, m.threads[t]);
  }

  lemma LoopChecks(l: Launcher, t: nat, yes: bool)
    requires t in l.threads && InLoop(l.threads[t])
    requires !l.threads[t].after.Return? || (l.q != [] && MoveLoop(l, t, yes).q == [])
    ensures var m := MoveLoop(l, t, yes); t in m.threads && Checks(m, m.threads[t])
  {
    hide Counter, Difference;
  }

  /** The steps of the test, for counters that have not changed. */
  lemma TestChecks(l: Launcher, t: nat, yes: bool)
    requires CountInv(l) && EndInv(l) && l.noMore && l.q == []
    requires t in l.threads && InTest(l.threads[t]) && Checks(l, l.threads[t])
    ensures WillCall(MoveTest(l, t, yes)) || exists u :: u in l.threads && u != t && Checks(l, l.threads[u])
  {
    hide Total;
    var m := MoveTest(l, t, yes);
    if t in m.threads {
      assert m.callbacks == 1 || Checks(m, m.threads[t]);
    } else if l.threads[t].Matching? {
      var u := SomeOwed(l.threads, l.next);
      OwedChecks(l, l.threads[u]);
    } else {
      assert l.callbacks == 1 || (l.lock.thread in l.threads && Checks(l, l.threads[l.lock.thread]));
    }
  }

  lemma EndChecks(l: Launcher, t: nat)
    requires EndInv(l) && t in l.threads && InEnd(l.threads[t])
    ensures var m := MoveEnd(l, t); m.callbacks == 1 || (t in m.threads && Checks(m, m.threads[t]))
  {}

  /** Another thread that is to check still is. */
  lemma OtherChecks(l: Launcher, t: nat, yes: bool, u: nat)
    requires t in l.threads && u in l.threads && u != t && u != l.next && Checks(l, l.threads[u])
    requires var m := Move(l, t, yes);
      m.launched == l.launched && m.finished == l.finished && m.allFinished == l.allFinished
    ensures SomeChecks(Move(l, t, yes))
  {
    OthersStay(l, t, yes, u);
    var m := Move(l, t, yes);
    hide Move;
    assert u in m.threads && Checks(m, m.threads[u]);
  }

  lemma CallStep(l: Launcher, t: nat, yes: bool)
    requires CountInv(l) && EndInv(l) && l.noMore && t in l.threads && WillCall(l)
    ensures WillCall(Move(l, t, yes))
  {
    hide CountInv, LockInv, MoveOwner, MoveLoop, MoveTest, MoveEnd, Checks;
    var m := Move(l, t, yes);
    if OwnsSome(l.threads[t]) || l.threads[t].Counting? {
      OwnerChecks(l, t, yes);
    } else if InEnd(l.threads[t]) {
      EndChecks(l, t);
    } else {
      OtherStill(l, t, yes);
      if m.q == [] && l.callbacks != 1 {
        if l.q != [] {
          LoopChecks(l, t, yes);
        } else {
          var u :| u in l.threads && Checks(l, l.threads[u]);
          if u != t {
            OtherChecks(l, t, yes, u);
          } else if InLoop(l.threads[t]) {
            CheckingLoop(l, l.threads[t]);
            LoopChecks(l, t, yes);
          } else {
            TestChecks(l, t, yes);
            if !WillCall(MoveTest(l, t, yes)) {
              var v :| v in l.threads && v != t && Checks(l, l.threads[v]);
              OtherChecks(l, t, yes, v);
            }
          }
        }
      }
    }
  }

  lemma CheckingLoop(l: Launcher, th: Thread)
    requires InLoop(th)
    ensures Checks(l, th) <==> !th.after.Return?
  {}

  lemma {:induction false} Called(max: nat, steps: seq<Step>, more: seq<Step>)
    requires var l := Execute(max, steps); l.noMore && WillCall(l)
    ensures var l := Execute(max, steps + more); l.noMore && WillCall(l)
  {
    hide Execute, Inv, WillCall, Next;
    LastOf(max, steps, more);
    if more != [] {
      var n := |more| - 1;
      Called(max, steps, more[..n]);
      ExecuteInv(max, steps + more[..n]);
      InvParts(Execute(max, steps + more[..n]));
      hide EndInv, CountInv;
      CalledNext(Execute(max, steps + more[..n]), more[n]);
    }
  }

  lemma InvParts(l: Launcher)
    requires Inv(l)
    ensures CountInv(l) && EndInv(l)
  {}

  lemma CalledNext(l: Launcher, step: Step)
    requires CountInv(l) && EndInv(l) && l.noMore && WillCall(l)
    ensures Next(l, step).noMore && WillCall(Next(l, step))
  {
    hide EndInv, Counter, Move;
    match step
    case Advance(t, yes) =>
      if t in l.threads {
        CallStep(l, t, yes);
        NoMoreStays(l, t, yes);
      }
    case Add => AddChecks(l);
    case NoMore => assert Next(l, NoMore) == l;
    case SetMax(max) => SameChecks(l, l.(max := max));
  }

  lemma SameChecks(l: Launcher, m: Launcher)
    requires l.launched == m.launched && l.finished == m.finished && l.allFinished == m.allFinished
    ensures forall th :: Checks(l, th) <==> Checks(m, th)
    ensures forall th :: Passive(l, th) <==> Passive(m, th)
  {
    SameCounter(l, m);
    hide Counter;
    assert forall th: Thread :: th.Measuring? || th.Matching? ==> (Fresh(l, th) <==> Fresh(m, th));
    hide Fresh;
  }

  lemma NoMoreStays(l: Launcher, t: nat, yes: bool)
    requires t in l.threads && l.noMore
    ensures Move(l, t, yes).noMore
  {
    if !OwnsSome(l.threads[t]) && !l.threads[t].Counting? && !InEnd(l.threads[t]) {
      OtherStill(l, t, yes);
      hide Move;
    } else {
      hide MoveLoop, MoveTest;
    }
  }

  /** Nobody is to check any more: a thread that compares the counters has read one that has changed since. */
  ghost predicate Over(l: Launcher) {
    && l.callbacks == 0 && l.q == [] && l.launched == l.finished
    && forall t :: t in l.threads ==> Passive(l, l.threads[t])
  }

  predicate Passive(l: Launcher, th: Thread) { (InLoop(th) && th.after.Return?) || (th.Matching? && !Fresh(l, th)) }

  lemma PassiveMove(l: Launcher, t: nat, yes: bool)
    requires t in l.threads && Passive(l, l.threads[t]) && l.q == [] && l.launched == l.finished
    ensures var m := Move(l, t, yes); t in m.threads ==> Passive(m, m.threads[t])
  {
    hide MoveOwner, MoveEnd, Difference;
  }

  lemma OverNext(l: Launcher, step: Step)
    requires Over(l) && Inv(l) && !step.Add?
    ensures Over(Next(l, step))
  {
    InvParts(l);
    hide Move, Passive, TasksInv, EndInv;
    var m := Next(l, step);
    if step.Advance? && step.t in l.threads {
      OverMove(l, step.t, step.yes);
    } else {
      SameChecks(l, m);
    }
  }

  lemma OverMove(l: Launcher, t: nat, yes: bool)
    requires Over(l) && t in l.threads && forall u :: u in l.threads ==> u < l.next
    ensures Over(Move(l, t, yes))
  {
    var m := Move(l, t, yes);
    PassiveMove(l, t, yes);
    OtherStill(l, t, yes);
    OtherOwed(l, t, yes);
    SameChecks(l, m);
    hide Move, Passive;
  }

  lemma {:induction false} StaysOver(max: nat, steps: seq<Step>, more: seq<Step>)
    requires Over(Execute(max, steps)) && forall i :: 0 <= i < |more| ==> !more[i].Add?
    ensures Over(Execute(max, steps + more))
  {
    hide Execute, Over, Next, Inv;
    LastOf(max, steps, more);
    if more != [] {
      var n := |more| - 1;
      StaysOver(max, steps, more[..n]);
      ExecuteInv(max, steps + more[..n]);
      OverNext(Execute(max, steps + more[..n]), more[n]);
    }
  }

  /** Before `setNoMoreTasks`, nobody is to check exactly if it is over. */
  lemma OverBefore(l: Launcher)
    requires Inv(l) && !l.noMore
    ensures WillCall(l) <==> !Over(l)
  {
    hide TasksInv, CountInv, Counter;
    if !SomeChecks(l) && l.launched != l.finished {
      UnevenChecks(l);
    }
    if !WillCall(l) {
      forall t | t in l.threads
        ensures Passive(l, l.threads[t])
      {
        assert !Checks(l, l.threads[t]);
      }
    }
  }

  lemma NoMoreNext(max: nat, steps: seq<Step>)
    ensures Execute(max, steps + [NoMore]) == Execute(max, steps).(noMore := true)
  {
    OneMore(max, steps, NoMore);
  }

  lemma StillToCall(l: Launcher)
    ensures WillCall(l.(noMore := true)) <==> WillCall(l)
    ensures Over(l.(noMore := true)) <==> Over(l)
  {
    SameChecks(l, l.(noMore := true));
    hide Checks, Passive;
  }

  /** A task that is added later brings its own check. */
  lemma AddedLater(max: nat, steps: seq<Step>, more: seq<Step>, i: nat)
    requires Execute(max, steps).noMore && i < |more| && more[i].Add?
    ensures WillCall(Execute(max, steps + more))
  {
    hide Execute, WillCall, Next;
    NoMoreRun(max, steps, more[..i]);
    OneMore(max, steps + more[..i], Add);
    AddChecks(Execute(max, steps + more[..i]));
    Called(max, steps + more[..i] + [Add], more[i + 1..]);
    SplitAt(steps, more, i);
  }

  lemma SplitAt(steps: seq<Step>, more: seq<Step>, i: nat)
    requires i < |more|
    ensures steps + more[..i] + [more[i]] + more[i + 1..] == steps + more
  {
    assert more == more[..i] + [more[i]] + more[i + 1..];
  }

  lemma AddChecks(l: Launcher)
    ensures WillCall(Next(l, Add)) && Next(l, Add).noMore == l.noMore
  {
    var m := Next(l, Add);
    assert l.next in m.threads && Checks(m, m.threads[l.next]);
  }

  lemma {:induction false} NoMoreRun(max: nat, steps: seq<Step>, more: seq<Step>)
    requires Execute(max, steps).noMore
    ensures Execute(max, steps + more).noMore
  {
    hide Execute, Move;
    LastOf(max, steps, more);
    if more != [] {
      var n := |more| - 1;
      NoMoreRun(max, steps, more[..n]);
      var l := Execute(max, steps + more[..n]);
      if more[n].Advance? && more[n].t in l.threads {
        NoMoreStays(l, more[n].t, more[n].yes);
      }
    }
  }

  /**
   Whether the callback is ever called is decided when `setNoMoreTasks` is: if and only if a task is queued
   then, or some thread is still to make the last check, or a task is added later in spite of it. All
   threads have returned at the end.
   */
  lemma CalledIff(max: nat, steps: seq<Step>, more: seq<Step>)
    requires var all := steps + [NoMore] + more;
      Limited(max, all) && !Execute(max, steps).noMore && Execute(max, all).threads == map[]
    ensures Execute(max, steps + [NoMore] + more).callbacks == 1 <==>
      Execute(max, steps).q != [] || SomeChecks(Execute(max, steps)) || exists i :: 0 <= i < |more| && more[i].Add?
  {
    hide Execute, CountInv, TasksInv, Checks, Limited;
    var l, m := Execute(max, steps), Execute(max, steps + [NoMore]);
    NoMoreNext(max, steps);
    ExecuteInv(max, steps);
    OverBefore(l);
    StillToCall(l);
    NothingLeft(max, steps + [NoMore] + more);
    assert l.callbacks == 0;
    if i :| 0 <= i < |more| && more[i].Add? {
      AddedLater(max, steps + [NoMore], more, i);
    } else if WillCall(l) {
      Called(max, steps + [NoMore], more);
    } else {
      StaysOver(max, steps + [NoMore], more);
    }
  }

  /** It need not be called: one task is added, run and checked for, and only then there are no more. */
  lemma NeverCalled(max: nat) returns (steps: seq<Step>)
    requires max > 0
    ensures var l := Execute(max, steps);
      l.noMore && l.threads == map[] && l.deleted == [0] && l.tasks == 1 && l.callbacks == 0
  {
    hide Execute, Next;
    steps := OneChecks(max);
    var l := Execute(max, steps);
    EvenNext(l, 1);
    UnfinishedNext(l, 1);
    steps := Go(max, steps, Advance(1, true));
    steps := Go(max, steps, Advance(1, true));
    steps := Go(max, steps, Advance(1, true));
    NoMoreNext(max, steps);
    steps := steps + [NoMore];
  }

  lemma UnfinishedNext(l: Launcher, t: nat)
    requires t in l.threads && !l.noMore
    ensures Next(l.(threads := l.threads[t := Even]), Advance(t, true)) == l.(threads := l.threads - {t})
  {
    hide MoveOwner, MoveEnd, MoveLoop, Counter;
    assert l.threads[t := Even] - {t} == l.threads - {t};
  }
}
