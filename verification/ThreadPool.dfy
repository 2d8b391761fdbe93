/**
 The thread pool as a state machine over the steps its threads take between locking operations: any
 number of callers of `addTask`, the workers, and for each worker a local queue, a mutex and a condition
 that is signalled at most one waiter. What is proved holds under every interleaving of runs without `kill`.
 */
module ThreadPool {

  import opened Sequences

  /**
   Where a worker is in `hThread::run`. `Locking` and `Woken` wait for the mutex, `Testing` and `Leaving`
   hold it; `Blocked` is inside `pthread_cond_wait`.
   */
  datatype Pc =
    | AtLocal | Running(task: nat, fromLocal: bool) | AtGlobal | Announcing
    | Locking | Testing | Blocked | Woken | Leaving

  datatype Holder = Nobody | TheWorker | Caller(id: nat)

  /** `claim` is history: the caller of `addTask` that took the worker off the queue of waiting threads. */
  datatype Claim = Unclaimed | By(id: nat)

  datatype Worker = Worker(pc: Pc, local: seq<nat>, mutex: Holder, claim: Claim)

  /** Where a call of `addTask` is. The call for task `id` has the number `id`. */
  datatype Call = Asking | Chosen(w: nat) | Holding(w: nat) | Pushed(w: nat) | Kicked(w: nat) | Unlucky

  /** Where a task is, as history. */
  datatype Place = InHand | InGlobal | InLocal(w: nat) | Executing(w: nat) | Done

  datatype Pool = Pool(
    workers: seq<Worker>, waiting: seq<nat>, global: seq<nat>, calls: map<nat, Call>,
    added: nat, place: map<nat, Place>, started: seq<nat>)

  const FRESH := Worker(AtLocal, [], Nobody, Unclaimed)

  function Init(n: nat): Pool { Pool(seq(n, i => FRESH), [], [], map[], 0, map[], []) }

  datatype Step = Add | Proceed(id: nat) | Work(w: nat) | Spurious(w: nat)

  // ----- the steps

  function SetWorker(p: Pool, w: nat, x: Worker): Pool
    requires w < |p.workers|
  {
    p.(workers := p.workers[w := x])
  }

  /** `addTask` up to its next lock. */
  function CallStep(p: Pool, id: nat): Pool
    requires id in p.calls
  {
    match p.calls[id]
    case Asking =>
      if p.waiting == [] then p.(calls := p.calls[id := Unlucky])
      else
        var w := p.waiting[0];
        var q := p.(waiting := p.waiting[1..], calls := p.calls[id := Chosen(w)]);
        if w < |p.workers| then SetWorker(q, w, p.workers[w].(claim := By(id))) else q
    case Unlucky => p.(global := p.global + [id], calls := p.calls - {id}, place := p.place[id := InGlobal])
    case Chosen(w) =>
      if w < |p.workers| && p.workers[w].mutex == Nobody then
        SetWorker(p, w, p.workers[w].(mutex := Caller(id))).(calls := p.calls[id := Holding(w)])
      else p
    case Holding(w) =>
      if w < |p.workers| then
        SetWorker(p, w, p.workers[w].(local := p.workers[w].local + [id]))
          .(calls := p.calls[id := Pushed(w)], place := p.place[id := InLocal(w)])
      else p
    case Pushed(w) =>
      if w < |p.workers| then
        SetWorker(p, w, if p.workers[w].pc == Blocked then p.workers[w].(pc := Woken) else p.workers[w])
          .(calls := p.calls[id := Kicked(w)])
      else p
    case Kicked(w) =>
      if w < |p.workers| then
        SetWorker(p, w, p.workers[w].(mutex := Nobody, claim := Unclaimed)).(calls := p.calls - {id})
      else p
  }

  function Begin(p: Pool, w: nat, task: nat, fromLocal: bool): Pool
    requires w < |p.workers|
  {
    SetWorker(p, w, p.workers[w].(pc := Running(task, fromLocal)))
      .(place := p.place[task := Executing(w)], started := p.started + [task])
  }

  /** A worker's next step. */
  function WorkStep(p: Pool, w: nat): Pool
    requires w < |p.workers|
  {
    var x := p.workers[w];
    match x.pc
    case AtLocal =>
      if x.local == [] then SetWorker(p, w, x.(pc := AtGlobal))
      else Begin(SetWorker(p, w, x.(local := x.local[1..])), w, x.local[0], true)
    case Running(task, fromLocal) =>
      SetWorker(p, w, x.(pc := if fromLocal then AtLocal else AtGlobal)).(place := p.place[task := Done])
    case AtGlobal =>
      if p.global == [] then SetWorker(p, w, x.(pc := Announcing))
      else Begin(p.(global := p.global[1..]), w, p.global[0], false)
    case Announcing => SetWorker(p, w, x.(pc := Locking)).(waiting := p.waiting + [w])
    case Locking => if x.mutex == Nobody then SetWorker(p, w, x.(pc := Testing, mutex := TheWorker)) else p
    case Testing =>
      if x.local != [] then SetWorker(p, w, x.(pc := Leaving))
      else SetWorker(p, w, x.(pc := Blocked, mutex := Nobody))
    case Blocked => p
    case Woken => if x.mutex == Nobody then SetWorker(p, w, x.(pc := Testing, mutex := TheWorker)) else p
    case Leaving => SetWorker(p, w, x.(pc := AtLocal, mutex := Nobody))
  }

  function Next(p: Pool, step: Step): (q: Pool)
    ensures |q.workers| == |p.workers|
  {
    match step
    case Add => p.(calls := p.calls[p.added := Asking], added := p.added + 1, place := p.place[p.added := InHand])
    case Proceed(id) => if id in p.calls then CallStep(p, id) else p
    case Work(w) => if w < |p.workers| then WorkStep(p, w) else p
    case Spurious(w) =>
      if w < |p.workers| && p.workers[w].pc == Blocked then SetWorker(p, w, p.workers[w].(pc := Woken)) else p
  }

  function Execute(n: nat, steps: seq<Step>): (p: Pool)
    ensures |p.workers| == n
  {
    if steps == [] then Init(n) else Next(Execute(n, steps[..|steps| - 1]), steps[|steps| - 1])
  }

  // ----- the invariant of the workers

  predicate InWait(pc: Pc) { pc.Locking? || pc.Testing? || pc.Blocked? || pc.Woken? }

  predicate OffMutex(pc: Pc) { pc.Locking? || pc.Blocked? || pc.Woken? }

  /** The call `id` that has claimed worker `w`, step by step. */
  predicate ClaimedBy(x: Worker, w: nat, id: nat, call: Call) {
    match call
    case Chosen(v) => v == w && x.local == [] && InWait(x.pc) && !x.mutex.Caller?
    case Holding(v) => v == w && x.local == [] && OffMutex(x.pc) && x.mutex == Caller(id)
    case Pushed(v) => v == w && x.local == [id] && OffMutex(x.pc) && x.mutex == Caller(id)
    case Kicked(v) => v == w && x.local == [id] && OffMutex(x.pc) && x.pc != Blocked && x.mutex == Caller(id)
    case _ => false
  }

  /**
   A worker that is waiting is in the queue of waiting threads with nothing to do, or claimed by exactly
   one call, or has one task and will find it.
   */
  ghost predicate WorkerInv(x: Worker, w: nat, queued: bool, calls: map<nat, Call>) {
    && (x.mutex == TheWorker <==> x.pc.Testing? || x.pc.Leaving?)
    && match x.claim
       case By(id) => !queued && id in calls && ClaimedBy(x, w, id, calls[id])
       case Unclaimed =>
         && !x.mutex.Caller?
         && (queued ==> InWait(x.pc) && x.local == [])
         && (!queued && (InWait(x.pc) || x.pc.Leaving?) ==> |x.local| == 1 && x.pc != Blocked)
         && |x.local| <= 1
         && (x.local != [] ==> InWait(x.pc) || x.pc.Leaving? || x.pc.AtLocal?)
  }

  predicate Targets(call: Call) { call.Chosen? || call.Holding? || call.Pushed? || call.Kicked? }

  ghost predicate WorkersInv(p: Pool) {
    && Distinct(p.waiting) && (forall w :: w in p.waiting ==> w < |p.workers|)
    && (forall w :: 0 <= w < |p.workers| ==> WorkerInv(p.workers[w], w, w in p.waiting, p.calls))
    && (forall id :: id in p.calls && Targets(p.calls[id]) ==>
          p.calls[id].w < |p.workers| && p.workers[p.calls[id].w].claim == By(id))
  }

  // ----- the invariant of the tasks

  predicate CallHolds(call: Call) { call.Asking? || call.Unlucky? || call.Chosen? || call.Holding? }

  predicate Runs(x: Worker, id: nat) { x.pc.Running? && x.pc.task == id }

  /** The place of a task is where the queues and program counters say, and nowhere else. */
  ghost predicate TaskInv(p: Pool, id: nat) {
    && (id in p.place <==> id < p.added)
    && (id in p.calls ==> id in p.place)
    && (id in p.calls && CallHolds(p.calls[id]) <==> id in p.place && p.place[id] == InHand)
    && (id in p.global <==> id in p.place && p.place[id] == InGlobal)
    && (forall w :: 0 <= w < |p.workers| ==>
          && (id in p.workers[w].local <==> id in p.place && p.place[id] == InLocal(w))
          && (Runs(p.workers[w], id) <==> id in p.place && p.place[id] == Executing(w)))
    && (id in p.place && (p.place[id].InLocal? || p.place[id].Executing?) ==> p.place[id].w < |p.workers|)
    && (id in p.started <==> id in p.place && (p.place[id].Executing? || p.place[id].Done?))
  }

  ghost predicate TasksInv(p: Pool) {
    Distinct(p.global) && Distinct(p.started) && forall id: nat :: TaskInv(p, id)
  }

  ghost predicate Inv(p: Pool) { WorkersInv(p) && TasksInv(p) }

  lemma InitInv(n: nat)
    ensures Inv(Init(n))
  {}

  // ----- the workers

  /** A step of call `id` or of worker `w` leaves the other workers as they are. */
  lemma OtherWorkers(p: Pool, q: Pool, w: nat, id: nat)
    requires WorkersInv(p) && |q.workers| == |p.workers|
    requires forall v :: 0 <= v < |p.workers| && v != w ==>
      q.workers[v] == p.workers[v] && (v in q.waiting <==> v in p.waiting) && p.workers[v].claim != By(id)
    requires forall k :: k != id ==> (k in q.calls <==> k in p.calls) && (k in p.calls ==> q.calls[k] == p.calls[k])
    ensures forall v :: 0 <= v < |p.workers| && v != w ==> WorkerInv(q.workers[v], v, v in q.waiting, q.calls)
  {
    forall v | 0 <= v < |p.workers| && v != w
      ensures WorkerInv(q.workers[v], v, v in q.waiting, q.calls)
    {
      assert WorkerInv(p.workers[v], v, v in p.waiting, p.calls);
    }
  }

  /** A worker is claimed by the call that targets it and by no other. */
  lemma ClaimIsTarget(p: Pool, v: nat, id: nat)
    requires WorkersInv(p) && v < |p.workers| && p.workers[v].claim == By(id)
    ensures id in p.calls && Targets(p.calls[id]) && p.calls[id].w == v
  {
    assert WorkerInv(p.workers[v], v, v in p.waiting, p.calls);
  }

  lemma Unclaimers(p: Pool, w: nat, id: nat)
    requires WorkersInv(p) && (id in p.calls && Targets(p.calls[id]) ==> p.calls[id].w == w)
    ensures forall v :: 0 <= v < |p.workers| && v != w ==> p.workers[v].claim != By(id)
  {
    forall v | 0 <= v < |p.workers| && v != w
      ensures p.workers[v].claim != By(id)
    {
      if p.workers[v].claim == By(id) {
        ClaimIsTarget(p, v, id);
      }
    }
  }

  /** The targets of the calls are kept when one call and one worker change. */
  lemma TargetsKept(p: Pool, q: Pool, w: nat, id: nat)
    requires WorkersInv(p) && w < |p.workers| && |q.workers| == |p.workers|
    requires forall v :: 0 <= v < |p.workers| && v != w ==> q.workers[v] == p.workers[v]
    requires forall k :: k != id ==> (k in q.calls <==> k in p.calls) && (k in p.calls ==> q.calls[k] == p.calls[k])
    requires id in q.calls && Targets(q.calls[id]) ==> q.calls[id].w == w && q.workers[w].claim == By(id)
    requires p.workers[w].claim == By(id) || q.workers[w].claim == p.workers[w].claim || p.workers[w].claim == Unclaimed
    ensures forall k :: k in q.calls && Targets(q.calls[k]) ==>
      q.calls[k].w < |q.workers| && q.workers[q.calls[k].w].claim == By(k)
  {}

  lemma WorkersFrom(p: Pool, q: Pool, w: nat, id: nat)
    requires WorkersInv(p) && w < |p.workers| && |q.workers| == |p.workers|
    requires id in p.calls && Targets(p.calls[id]) ==> p.calls[id].w == w
    requires forall v :: 0 <= v < |p.workers| && v != w ==>
      q.workers[v] == p.workers[v] && (v in q.waiting <==> v in p.waiting)
    requires forall k :: k != id ==> (k in q.calls <==> k in p.calls) && (k in p.calls ==> q.calls[k] == p.calls[k])
    requires id in q.calls && Targets(q.calls[id]) ==> q.calls[id].w == w && q.workers[w].claim == By(id)
    requires p.workers[w].claim == By(id) || q.workers[w].claim == p.workers[w].claim || p.workers[w].claim == Unclaimed
    requires Distinct(q.waiting) && (w in q.waiting || forall v :: v in q.waiting ==> v in p.waiting)
    requires forall v :: v in q.waiting ==> v < |p.workers|
    requires WorkerInv(q.workers[w], w, w in q.waiting, q.calls)
    ensures WorkersInv(q)
  {
    Unclaimers(p, w, id);
    OtherWorkers(p, q, w, id);
    TargetsKept(p, q, w, id);
    hide WorkerInv;
  }

  lemma AskWorkers(p: Pool, id: nat)
    requires WorkersInv(p) && id in p.calls && p.calls[id].Asking?
    ensures WorkersInv(CallStep(p, id))
  {
    var q := CallStep(p, id);
    if p.waiting == [] {
      forall v | 0 <= v < |p.workers|
        ensures WorkerInv(q.workers[v], v, v in q.waiting, q.calls)
      {
        assert WorkerInv(p.workers[v], v, v in p.waiting, p.calls);
      }
    } else {
      Popped(p.waiting);
      var w := p.waiting[0];
      assert w in p.waiting;
      assert WorkerInv(p.workers[w], w, w in p.waiting, p.calls);
      WorkersFrom(p, q, w, id);
    }
  }

  lemma UnluckyWorkers(p: Pool, id: nat)
    requires WorkersInv(p) && id in p.calls && p.calls[id].Unlucky?
    ensures WorkersInv(CallStep(p, id))
  {
    var q := CallStep(p, id);
    forall v | 0 <= v < |p.workers|
      ensures WorkerInv(q.workers[v], v, v in q.waiting, q.calls)
    {
      assert WorkerInv(p.workers[v], v, v in p.waiting, p.calls);
    }
  }

  lemma TargetingWorkers(p: Pool, id: nat)
    requires WorkersInv(p) && id in p.calls && Targets(p.calls[id])
    ensures WorkersInv(CallStep(p, id))
  {
    var w := p.calls[id].w;
    assert WorkerInv(p.workers[w], w, w in p.waiting, p.calls);
    WorkersFrom(p, CallStep(p, id), w, id);
  }

  /** A worker's step that keeps its claim and changes nothing but the worker and perhaps the queue. */
  lemma WorkerFrom(p: Pool, q: Pool, w: nat)
    requires WorkersInv(p) && w < |p.workers| && |q.workers| == |p.workers| && p.added !in p.calls
    requires forall v :: 0 <= v < |p.workers| && v != w ==> q.workers[v] == p.workers[v]
    requires q.calls == p.calls && q.workers[w].claim == p.workers[w].claim
    requires q.waiting == p.waiting || (w !in p.waiting && q.waiting == p.waiting + [w])
    requires WorkerInv(q.workers[w], w, w in q.waiting, q.calls)
    ensures WorkersInv(q)
  {
    var x := p.workers[w];
    assert WorkerInv(x, w, w in p.waiting, p.calls);
    WorkersFrom(p, q, w, if x.claim.By? then x.claim.id else p.added);
  }

  lemma WaitWorkers(p: Pool, w: nat)
    requires WorkersInv(p) && w < |p.workers| && p.added !in p.calls
    requires var pc := p.workers[w].pc; InWait(pc) || pc.Announcing? || pc.Leaving?
    ensures WorkersInv(WorkStep(p, w))
  {
    assert WorkerInv(p.workers[w], w, w in p.waiting, p.calls);
    WorkerFrom(p, WorkStep(p, w), w);
    hide WorkersInv;
  }

  lemma LoopWorkers(p: Pool, w: nat)
    requires WorkersInv(p) && w < |p.workers| && p.added !in p.calls
    requires var pc := p.workers[w].pc; pc.AtLocal? || pc.Running? || pc.AtGlobal?
    ensures WorkersInv(WorkStep(p, w))
  {
    assert WorkerInv(p.workers[w], w, w in p.waiting, p.calls);
    WorkerFrom(p, WorkStep(p, w), w);
    hide WorkersInv;
  }

  lemma AddWorkers(p: Pool)
    requires WorkersInv(p) && p.added !in p.calls
    ensures WorkersInv(Next(p, Add))
  {
    var q := Next(p, Add);
    forall v | 0 <= v < |p.workers|
      ensures WorkerInv(q.workers[v], v, v in q.waiting, q.calls)
    {
      assert WorkerInv(p.workers[v], v, v in p.waiting, p.calls);
    }
  }

  // ----- the tasks

  /** A step that concerns the task `t` only. */
  ghost predicate Moves(p: Pool, q: Pool, t: nat) {
    && |q.workers| == |p.workers|
    && (forall id: nat :: id != t ==>
          && (id in q.place <==> id in p.place) && (id in p.place ==> q.place[id] == p.place[id])
          && (id in q.calls <==> id in p.calls) && (id in p.calls ==> q.calls[id] == p.calls[id])
          && (id in q.global <==> id in p.global) && (id in q.started <==> id in p.started)
          && (id < q.added <==> id < p.added))
    && (forall id: nat, w :: id != t && 0 <= w < |p.workers| ==>
          && (id in q.workers[w].local <==> id in p.workers[w].local)
          && (Runs(q.workers[w], id) <==> Runs(p.workers[w], id)))
  }

  lemma MovesKeep(p: Pool, q: Pool, t: nat)
    requires TasksInv(p) && Moves(p, q, t) && TaskInv(q, t) && Distinct(q.global) && Distinct(q.started)
    ensures TasksInv(q)
  {
    forall id: nat
      ensures TaskInv(q, id)
    {
      if id != t {
        assert TaskInv(p, id);
      }
    }
  }

  lemma AddTasks(p: Pool)
    requires TasksInv(p)
    ensures TasksInv(Next(p, Add))
  {
    assert TaskInv(p, p.added);
    MovesKeep(p, Next(p, Add), p.added);
  }

  lemma AskTasks(p: Pool, id: nat)
    requires TasksInv(p) && id in p.calls && (p.calls[id].Asking? || p.calls[id].Unlucky?)
    ensures TasksInv(CallStep(p, id))
  {
    assert TaskInv(p, id);
    assert Distinct(p.global) && Distinct(p.started);
    hide TasksInv;
    MovesKeep(p, CallStep(p, id), id);
  }

  lemma MutexTasks(p: Pool, id: nat)
    requires Inv(p) && id in p.calls && (p.calls[id].Chosen? || p.calls[id].Kicked?)
    ensures TasksInv(CallStep(p, id))
  {
    assert TaskInv(p, id);
    assert Distinct(p.global) && Distinct(p.started);
    hide TasksInv;
    MovesKeep(p, CallStep(p, id), id);
  }

  lemma TargetTasks(p: Pool, id: nat)
    requires Inv(p) && id in p.calls && (p.calls[id].Holding? || p.calls[id].Pushed?)
    ensures TasksInv(CallStep(p, id))
  {
    assert TaskInv(p, id);
    var w := p.calls[id].w;
    assert WorkerInv(p.workers[w], w, w in p.waiting, p.calls);
    assert Distinct(p.global) && Distinct(p.started);
    hide TasksInv, WorkersInv;
    MovesKeep(p, CallStep(p, id), id);
  }

  lemma FinishTasks(p: Pool, w: nat)
    requires TasksInv(p) && w < |p.workers| && p.workers[w].pc.Running?
    ensures TasksInv(WorkStep(p, w))
  {
    var t := p.workers[w].pc.task;
    assert TaskInv(p, t);
    assert Distinct(p.global) && Distinct(p.started);
    hide TasksInv;
    MovesKeep(p, WorkStep(p, w), t);
  }

  lemma BeginLocalTasks(p: Pool, w: nat)
    requires Inv(p) && w < |p.workers| && p.workers[w].pc.AtLocal? && p.workers[w].local != []
    ensures TasksInv(WorkStep(p, w))
  {
    var t := p.workers[w].local[0];
    assert WorkerInv(p.workers[w], w, w in p.waiting, p.calls);
    assert p.workers[w].local == [t];
    assert TaskInv(p, t);
    assert Distinct(p.global) && Distinct(p.started);
    hide TasksInv, WorkersInv, WorkerInv;
    MovesKeep(p, WorkStep(p, w), t);
  }

  lemma BeginGlobalTasks(p: Pool, w: nat)
    requires TasksInv(p) && w < |p.workers| && p.workers[w].pc.AtGlobal? && p.global != []
    ensures TasksInv(WorkStep(p, w))
  {
    var t := p.global[0];
    Popped(p.global);
    assert t in p.global && TaskInv(p, t);
    assert Distinct(p.global) && Distinct(p.started);
    hide TasksInv, Distinct;
    MovesKeep(p, WorkStep(p, w), t);
  }

  /** The steps that move no task. */
  lemma IdleTasks(p: Pool, q: Pool)
    requires TasksInv(p) && |q.workers| == |p.workers|
    requires q.global == p.global && q.calls == p.calls &&
      q.place == p.place && q.started == p.started && q.added == p.added
    requires forall w :: 0 <= w < |p.workers| ==>
      q.workers[w].local == p.workers[w].local && forall id: nat :: Runs(q.workers[w], id) <==> Runs(p.workers[w], id)
    ensures TasksInv(q)
  {
    assert TaskInv(p, p.added);
    assert Distinct(p.global) && Distinct(p.started);
    hide TasksInv;
    MovesKeep(p, q, p.added);
  }

  // ----- every step keeps the invariant

  lemma NoFreshCall(p: Pool)
    requires TasksInv(p)
    ensures p.added !in p.calls
  {
    assert TaskInv(p, p.added);
  }

  lemma CallStepInv(p: Pool, id: nat)
    requires Inv(p) && id in p.calls
    ensures Inv(CallStep(p, id))
  {
    hide WorkersInv, TasksInv, CallStep;
    match p.calls[id]
    case Asking =>
      AskWorkers(p, id);
      AskTasks(p, id);
    case Unlucky =>
      UnluckyWorkers(p, id);
      AskTasks(p, id);
    case Chosen(_) =>
      TargetingWorkers(p, id);
      MutexTasks(p, id);
    case Kicked(_) =>
      TargetingWorkers(p, id);
      MutexTasks(p, id);
    case _ =>
      TargetingWorkers(p, id);
      TargetTasks(p, id);
  }

  lemma WorkStepInv(p: Pool, w: nat)
    requires Inv(p) && w < |p.workers|
    ensures Inv(WorkStep(p, w))
  {
    NoFreshCall(p);
    var x := p.workers[w];
    if x.pc.AtLocal? || x.pc.Running? || x.pc.AtGlobal? {
      hide WorkersInv, TasksInv;
      LoopWorkers(p, w);
      if x.pc.AtLocal? && x.local != [] {
        BeginLocalTasks(p, w);
      } else if x.pc.AtGlobal? && p.global != [] {
        BeginGlobalTasks(p, w);
      } else if x.pc.Running? {
        FinishTasks(p, w);
      } else {
        IdleTasks(p, WorkStep(p, w));
      }
    } else {
      hide WorkersInv, TasksInv;
      WaitWorkers(p, w);
      IdleTasks(p, WorkStep(p, w));
    }
  }

  lemma SpuriousInv(p: Pool, w: nat)
    requires Inv(p)
    ensures Inv(Next(p, Spurious(w)))
  {
    NoFreshCall(p);
    if w < |p.workers| && p.workers[w].pc == Blocked {
      assert WorkerInv(p.workers[w], w, w in p.waiting, p.calls);
      var q := Next(p, Spurious(w));
      WorkerFrom(p, q, w);
      hide WorkersInv, TasksInv;
      IdleTasks(p, q);
    }
  }

  lemma NextInv(p: Pool, step: Step)
    requires Inv(p)
    ensures Inv(Next(p, step))
  {
    match step
    case Add =>
      NoFreshCall(p);
      AddWorkers(p);
      AddTasks(p);
    case Proceed(id) => if id in p.calls { CallStepInv(p, id); }
    case Work(w) => if w < |p.workers| { WorkStepInv(p, w); }
    case Spurious(w) => SpuriousInv(p, w);
  }

  lemma {:induction false} ExecuteInv(n: nat, steps: seq<Step>)
    ensures Inv(Execute(n, steps))
  {
    hide Inv, Next;
    if steps == [] {
      InitInv(n);
    } else {
      var p := Execute(n, steps[..|steps| - 1]);
      ExecuteInv(n, steps[..|steps| - 1]);
      NextInv(p, steps[|steps| - 1]);
    }
  }

  // ----- what holds under every interleaving

  /** The five places a task can be. */
  ghost predicate WithCaller(p: Pool, id: nat) { id in p.calls && CallHolds(p.calls[id]) }

  ghost predicate WithThread(p: Pool, id: nat, w: nat) { w < |p.workers| && id in p.workers[w].local }

  ghost predicate RunBy(p: Pool, id: nat, w: nat) { w < |p.workers| && Runs(p.workers[w], id) }

  ghost predicate Finished(p: Pool, id: nat) { id in p.started && forall w :: !RunBy(p, id, w) }

  /**
   Every added task is with its caller, in the global queue, in one thread's queue, being run by one
   thread, or finished; in one of these only, and it is started at most once.
   */
  lemma TaskConservation(n: nat, steps: seq<Step>, id: nat)
    ensures var p := Execute(n, steps);
      id < p.added ==>
        && (WithCaller(p, id) || id in p.global || Finished(p, id)
            || (exists w :: WithThread(p, id, w)) || (exists w :: RunBy(p, id, w)))
        && (WithCaller(p, id) ==> id !in p.global && id !in p.started && forall w :: !WithThread(p, id, w))
        && (id in p.global ==> id !in p.started && forall w :: !WithThread(p, id, w))
        && (id in p.started ==> forall w :: !WithThread(p, id, w))
        && (forall v, w :: WithThread(p, id, v) && WithThread(p, id, w) ==> v == w)
        && (forall v, w :: RunBy(p, id, v) && RunBy(p, id, w) ==> v == w)
        && (forall w :: RunBy(p, id, w) ==> id in p.started)
    ensures var p := Execute(n, steps); Distinct(p.global) && Distinct(p.started)
  {
    ExecuteInv(n, steps);
    var p := Execute(n, steps);
    hide Execute, WorkersInv;
    assert TaskInv(p, id);
    if id < p.added {
      match p.place[id]
      case InLocal(w) => assert WithThread(p, id, w);
      case Executing(w) => assert RunBy(p, id, w);
      case _ =>
    }
  }

  /** No thread is twice in the queue of waiting threads, and no thread has more than one task of its own. */
  lemma WaitingThreads(n: nat, steps: seq<Step>)
    ensures var p := Execute(n, steps);
      && Distinct(p.waiting)
      && (forall w :: w in p.waiting ==> w < n && InWait(p.workers[w].pc) && p.workers[w].local == [])
      && (forall w :: 0 <= w < n ==> |p.workers[w].local| <= 1)
  {
    ExecuteInv(n, steps);
    var p := Execute(n, steps);
    hide Execute, TasksInv;
    forall w | 0 <= w < n
      ensures |p.workers[w].local| <= 1 && (w in p.waiting ==> InWait(p.workers[w].pc) && p.workers[w].local == [])
    {
      assert WorkerInv(p.workers[w], w, w in p.waiting, p.calls);
    }
  }

  /**
   No wakeup is lost: a thread that is blocked without a signal has nothing to do, or the caller that
   gave it its task holds its mutex and signals next. And a blocked thread that is not in the queue of
   waiting threads has been taken from it by a caller that is still to give it a task or to signal.
   */
  lemma NoLostWakeup(n: nat, steps: seq<Step>, w: nat)
    requires w < n
    ensures var p := Execute(n, steps);
      var x := p.workers[w];
      x.pc.Blocked? ==>
        && (x.local != [] ==>
            exists id :: id in p.calls && p.calls[id] == Pushed(w) && x.mutex == Caller(id) && x.local == [id])
        && (w !in p.waiting ==>
            exists id :: id in p.calls &&
              (p.calls[id] == Chosen(w) || p.calls[id] == Holding(w) || p.calls[id] == Pushed(w)))
  {
    ExecuteInv(n, steps);
    var p := Execute(n, steps);
    hide Execute, TasksInv;
    var x := p.workers[w];
    assert WorkerInv(x, w, w in p.waiting, p.calls);
    if x.pc.Blocked? && w !in p.waiting {
      assert x.claim.By? && x.claim.id in p.calls;
    }
  }

  ghost predicate AtRest(p: Pool) { p.calls == map[] && forall w :: 0 <= w < |p.workers| ==> p.workers[w].pc.Blocked? }

  /** When no call is under way and every thread is blocked, a task is finished unless it is in the global queue. */
  lemma Quiescence(n: nat, steps: seq<Step>, id: nat)
    requires var p := Execute(n, steps); id < p.added && AtRest(p)
    ensures var p := Execute(n, steps); Finished(p, id) <==> id !in p.global
  {
    var p := Execute(n, steps);
    ExecuteInv(n, steps);
    TaskConservation(n, steps, id);
    hide Execute, TasksInv;
    forall w: nat
      ensures !WithThread(p, id, w) && !RunBy(p, id, w)
    {
      if w < n {
        assert WorkerInv(p.workers[w], w, w in p.waiting, p.calls);
      }
    }
  }

  // ----- when a task is finished, seen from its hand-over

  /** A worker that will look at the global queue before it next waits. */
  predicate Ahead(x: Worker) {
    || x.pc.AtLocal? || x.pc.Running? || x.pc.AtGlobal? || x.pc.Leaving?
    || (InWait(x.pc) && (x.local != [] || x.claim.By?))
  }

  ghost predicate SomeAhead(p: Pool) { exists w :: 0 <= w < |p.workers| && Ahead(p.workers[w]) }

  /** The task has been started, or some worker is ahead of it. */
  ghost predicate WillStart(p: Pool, id: nat) { id in p.started || (id in p.global && SomeAhead(p)) }

  lemma CallAhead(p: Pool, id: nat, task: nat)
    requires Inv(p) && id in p.calls && WillStart(p, task)
    ensures WillStart(CallStep(p, id), task)
  {
    hide TasksInv;
    if task !in p.started {
      var q := CallStep(p, id);
      var v :| 0 <= v < |p.workers| && Ahead(p.workers[v]);
      assert WorkerInv(p.workers[v], v, v in p.waiting, p.calls);
      assert 0 <= v < |q.workers| && Ahead(q.workers[v]);
    }
  }

  lemma StaysAhead(p: Pool, w: nat, v: nat)
    requires w < |p.workers| && v < |p.workers| && p.global != [] && Ahead(p.workers[v])
    requires WorkerInv(p.workers[v], v, v in p.waiting, p.calls)
    ensures Ahead(WorkStep(p, w).workers[v])
  {}

  lemma TakenOrThere(p: Pool, w: nat, task: nat)
    requires w < |p.workers| && task in p.global
    ensures var q := WorkStep(p, w); task in q.global || task in q.started
  {
    assert p.global == [p.global[0]] + p.global[1..];
  }

  lemma WorkAhead(p: Pool, w: nat, task: nat)
    requires WorkersInv(p) && w < |p.workers| && WillStart(p, task)
    ensures WillStart(WorkStep(p, w), task)
  {
    if task !in p.started {
      TakenOrThere(p, w, task);
      var v :| 0 <= v < |p.workers| && Ahead(p.workers[v]);
      StaysAhead(p, w, v);
      hide WorkStep, Ahead;
    } else {
      assert task in WorkStep(p, w).started;
    }
  }

  lemma SpuriousAhead(p: Pool, w: nat, task: nat)
    requires WillStart(p, task)
    ensures WillStart(Next(p, Spurious(w)), task)
  {
    if task !in p.started {
      var v :| 0 <= v < |p.workers| && Ahead(p.workers[v]);
      assert Ahead(Next(p, Spurious(w)).workers[v]);
    }
  }

  lemma NextAhead(p: Pool, step: Step, task: nat)
    requires Inv(p) && WillStart(p, task)
    ensures WillStart(Next(p, step), task)
  {
    hide WorkersInv, TasksInv, CallStep, WorkStep, Ahead;
    match step
    case Add =>
    case Proceed(id) => if id in p.calls { CallAhead(p, id, task); }
    case Work(w) => if w < |p.workers| { WorkAhead(p, w, task); }
    case Spurious(w) => SpuriousAhead(p, w, task);
  }

  lemma {:induction false} Starts(n: nat, steps: seq<Step>, more: seq<Step>, id: nat)
    requires WillStart(Execute(n, steps), id)
    ensures WillStart(Execute(n, steps + more), id)
  {
    hide WillStart, Inv, Next;
    if more == [] {
      assert steps + more == steps;
    } else {
      var k := |more| - 1;
      assert (steps + more)[..|steps| + k] == steps + more[..k];
      Starts(n, steps, more[..k], id);
      ExecuteInv(n, steps + more[..k]);
      NextAhead(Execute(n, steps + more[..k]), more[k], id);
    }
  }

  /** No worker will look at the global queue, and no call under way makes one do so. */
  ghost predicate Stuck(p: Pool, id: nat) {
    id in p.global && !SomeAhead(p) && forall c :: c in p.calls ==> p.calls[c].Unlucky?
  }

  lemma NextStuck(p: Pool, step: Step, id: nat)
    requires Inv(p) && Stuck(p, id) && !step.Add?
    ensures Stuck(Next(p, step), id)
  {
    hide TasksInv;
    match step
    case Proceed(c) =>
      assert Next(p, step).workers == p.workers;
    case Work(w) =>
      if w < |p.workers| {
        assert WorkerInv(p.workers[w], w, w in p.waiting, p.calls);
        var q := WorkStep(p, w);
        assert !Ahead(p.workers[w]) && !Ahead(q.workers[w]);
        assert forall v :: 0 <= v < |p.workers| && v != w ==> q.workers[v] == p.workers[v];
        hide WorkStep, WorkerInv;
      }
    case Spurious(w) =>
      var q := Next(p, step);
      assert forall v :: 0 <= v < |p.workers| ==> (Ahead(q.workers[v]) <==> Ahead(p.workers[v]));
  }

  predicate NoAdds(steps: seq<Step>) { forall i :: 0 <= i < |steps| ==> !steps[i].Add? }

  lemma {:induction false} StaysStuck(n: nat, steps: seq<Step>, more: seq<Step>, id: nat)
    requires Stuck(Execute(n, steps), id) && NoAdds(more)
    ensures Stuck(Execute(n, steps + more), id)
  {
    hide Stuck, Inv, Next;
    if more == [] {
      assert steps + more == steps;
    } else {
      var k := |more| - 1;
      assert (steps + more)[..|steps| + k] == steps + more[..k];
      StaysStuck(n, steps, more[..k], id);
      ExecuteInv(n, steps + more[..k]);
      NextStuck(Execute(n, steps + more[..k]), more[k], id);
    }
  }

  /** A call that targets a worker has claimed it, so that this worker is ahead. */
  lemma TargetsAhead(p: Pool, id: nat)
    requires WorkersInv(p) && id in p.calls && Targets(p.calls[id])
    ensures SomeAhead(p)
  {
    var w := p.calls[id].w;
    assert WorkerInv(p.workers[w], w, w in p.waiting, p.calls);
    assert Ahead(p.workers[w]);
  }

  /** At rest nobody is ahead. */
  lemma NoneAhead(p: Pool)
    requires WorkersInv(p) && AtRest(p)
    ensures !SomeAhead(p)
  {
    forall w | 0 <= w < |p.workers|
      ensures !Ahead(p.workers[w])
    {
      assert WorkerInv(p.workers[w], w, w in p.waiting, p.calls);
    }
  }

  /**
   A task that goes into the global queue while some worker is ahead is finished whenever everything has
   come to rest, whatever calls and tasks come in between.
   */
  lemma AheadFinishes(n: nat, steps: seq<Step>, more: seq<Step>, id: nat)
    requires var p := Execute(n, steps); id in p.global && SomeAhead(p)
    requires AtRest(Execute(n, steps + more))
    ensures Finished(Execute(n, steps + more), id)
  {
    Starts(n, steps, more, id);
    ExecuteInv(n, steps + more);
    var q := Execute(n, steps + more);
    hide Execute, TasksInv, Ahead;
    NoneAhead(q);
    hide WorkersInv;
  }

  /**
   Whether a task that finds no waiting thread is ever run is decided when it is pushed: unless calls are
   under way that are still to ask for a waiting thread or come later, it is finished at rest if and only
   if some worker is ahead at the push.
   */
  lemma HandOver(n: nat, steps: seq<Step>, id: nat, more: seq<Step>)
    requires var p := Execute(n, steps);
      id in p.calls && p.calls[id].Unlucky? && forall c :: c in p.calls ==> !p.calls[c].Asking?
    requires NoAdds(more) && AtRest(Execute(n, steps + [Proceed(id)] + more))
    ensures Finished(Execute(n, steps + [Proceed(id)] + more), id) <==> SomeAhead(Execute(n, steps))
  {
    var p, q := Execute(n, steps), Execute(n, steps + [Proceed(id)]);
    OneMore(n, steps, Proceed(id));
    assert q.workers == p.workers && id in q.global;
    if SomeAhead(p) {
      hide Execute;
      AheadFinishes(n, steps + [Proceed(id)], more, id);
    } else {
      ExecuteInv(n, steps);
      hide Execute;
      forall c | c in p.calls
        ensures p.calls[c].Unlucky?
      {
        if Targets(p.calls[c]) {
          TargetsAhead(p, c);
        }
      }
      StaysStuck(n, steps + [Proceed(id)], more, id);
      ExecuteInv(n, steps + [Proceed(id)] + more);
      assert TaskInv(Execute(n, steps + [Proceed(id)] + more), id);
    }
  }

  /** The task is on its way to a worker of its own, or is or was being run. */
  ghost predicate Assigned(p: Pool, id: nat) {
    && id in p.place
    && if p.place[id].InHand? then id in p.calls && Targets(p.calls[id]) else !p.place[id].InGlobal?
  }

  lemma NextAssigned(p: Pool, step: Step, id: nat)
    requires TasksInv(p) && Assigned(p, id)
    ensures Assigned(Next(p, step), id)
  {
    assert TaskInv(p, id);
    hide TasksInv;
    match step
    case Add =>
    case Proceed(_) => hide WorkStep;
    case Work(_) => hide CallStep;
    case Spurious(_) =>
  }

  lemma {:induction false} StaysAssigned(n: nat, steps: seq<Step>, more: seq<Step>, id: nat)
    requires Assigned(Execute(n, steps), id)
    ensures Assigned(Execute(n, steps + more), id)
  {
    hide Assigned, WorkersInv, TasksInv, Next;
    if more == [] {
      assert steps + more == steps;
    } else {
      var k := |more| - 1;
      assert (steps + more)[..|steps| + k] == steps + more[..k];
      StaysAssigned(n, steps, more[..k], id);
      ExecuteInv(n, steps + more[..k]);
      NextAssigned(Execute(n, steps + more[..k]), more[k], id);
    }
  }

  /** A task whose call finds a waiting thread is finished whenever everything has come to rest. */
  lemma LuckyFinishes(n: nat, steps: seq<Step>, id: nat, more: seq<Step>)
    requires var p := Execute(n, steps); id in p.calls && p.calls[id].Asking? && p.waiting != []
    requires AtRest(Execute(n, steps + [Proceed(id)] + more))
    ensures Finished(Execute(n, steps + [Proceed(id)] + more), id)
  {
    OneMore(n, steps, Proceed(id));
    ExecuteInv(n, steps);
    assert TaskInv(Execute(n, steps), id);
    var q := Execute(n, steps + [Proceed(id)] + more);
    hide Execute, WorkersInv;
    StaysAssigned(n, steps + [Proceed(id)], more, id);
    ExecuteInv(n, steps + [Proceed(id)] + more);
    assert TaskInv(q, id);
    Quiescence(n, steps + [Proceed(id)] + more, id);
  }

  lemma OneMore(n: nat, steps: seq<Step>, step: Step)
    ensures Execute(n, steps + [step]) == Next(Execute(n, steps), step)
  {
    assert (steps + [step])[..|steps|] == steps;
  }

  /**
   It can be in the global queue: a thread that has looked there and not yet announced itself misses a
   task that comes in between, and then blocks.
   */
  lemma Stranded() returns (steps: seq<Step>)
    ensures var p := Execute(1, steps); p.global == [0] && AtRest(p)
  {
    hide Next, Execute;
    steps := StrandedTask();
    var p := Execute(1, steps);
    var first := steps;
    OneMore(1, steps, Work(0));
    steps := steps + [Work(0)];
    OneMore(1, steps, Work(0));
    steps := steps + [Work(0)];
    OneMore(1, steps, Work(0));
    steps := steps + [Work(0)];
    ThenBlocks(p);
  }

  lemma ThenBlocks(p: Pool)
    requires |p.workers| == 1 && p.workers[0] == FRESH.(pc := Announcing) && p.global == [0] && p.calls == map[]
    ensures var q := Next(Next(Next(p, Work(0)), Work(0)), Work(0));
      q.global == [0] && q.calls == map[] && q.workers[0].pc.Blocked?
  {}

  /** A call that finds no waiting thread, between a thread's look at the global queue and its announcement. */
  lemma StrandedTask() returns (steps: seq<Step>)
    ensures var p := Execute(1, steps);
      p.workers[0] == FRESH.(pc := Announcing) && p.global == [0] && p.calls == map[]
  {
    hide Next, Execute;
    NoStepsYet();
    OneMore(1, [], Work(0));
    OneMore(1, [] + [Work(0)], Work(0));
    steps := [] + [Work(0)] + [Work(0)];
    LooksTwice();
    var p := Execute(1, steps);
    OneMore(1, steps, Add);
    OneMore(1, steps + [Add], Proceed(0));
    OneMore(1, steps + [Add] + [Proceed(0)], Proceed(0));
    steps := steps + [Add] + [Proceed(0)] + [Proceed(0)];
    GoesGlobal(p);
  }

  lemma NoStepsYet()
    ensures Execute(1, []) == Init(1)
  {}

  lemma LooksTwice()
    ensures Next(Next(Init(1), Work(0)), Work(0)) == Init(1).(workers := [FRESH.(pc := Announcing)])
  {
    var p := Next(Init(1), Work(0));
    assert p.workers == [FRESH.(pc := AtGlobal)];
  }

  lemma GoesGlobal(p: Pool)
    requires p == Init(1).(workers := [FRESH.(pc := Announcing)])
    ensures var q := Next(Next(Next(p, Add), Proceed(0)), Proceed(0));
      q.workers == p.workers && q.global == [0] && q.calls == map[]
  {
    var a := Next(p, Add);
    var b := Next(a, Proceed(0));
    assert b.calls == map[0 := Unlucky];
  }
}
