/** The command queue of core/rtw_cmd.c as a step system.
  *
  * Any number of kernel threads each issue one command.  Thread i allocates command i
  * and, when it wants to wait, puts a pointer to submit context i, which lives on its own
  * stack, into the command.  One worker thread (rtw_cmd_thread) drains the list.  Every
  * step below touches at most one shared word or runs under one lock, so every
  * interleaving of the C code at that grain is a run of this system.
  */
module CmdProtocol {

  import opened Sequences
  import opened Wrappers

  /* ---------- State ---------- */

  /** Where a submitting thread stands (rtw_createbss_cmd, rtw_enqueue_cmd). */
  datatype ThreadPc =
    | Preparing   // the command object is filled in, rtw_cmd_filter not yet passed
    | Checked     // rtw_cmd_filter said _SUCCESS, the command is not yet on the list
    | Inserted    // on the list, semaphore not yet raised
    | Waiting     // inside rtw_sctx_wait
    | Woken       // the wait ended, by completion or by timeout
    | Locked      // holds sctx_mutex, status not read yet
    | Clearing    // read RTW_SCTX_SUBMITTED, about to write cmdobj->sctx = NULL
    | Unlocking   // done under the mutex
    | Returned    // the frame holding the submit context is gone

  datatype Thread = Thread(pc: ThreadPc, waits: bool)

  /** A heap command object: whether it is still allocated, and its sctx pointer. */
  datatype Cmd = Cmd(alive: bool, sctx: Option<nat>)

  datatype Status = Submitted | Success | CmdError | CmdDrop

  /** A stack submit context: its status word and its completion. */
  datatype Ctx = Ctx(status: Status, done: bool)

  datatype Mutex = Free | ByWorker | ByThread(tid: nat)

  /** What the worker still has to do with a command it took off the list. */
  datatype Phase =
    | Have                             // validate, filter, execute
    | Post(out: Status)                // label post_process
    | Read(out: Status)                // holds the mutex, reads pcmd->sctx
    | Stat(out: Status, ctx: nat)      // writes the context's status word
    | Complete(ctx: nat)               // signals the context's completion
    | Null                             // writes pcmd->sctx = NULL
    | Unlock
    | Dispose                          // callback or rtw_free_cmd_obj

  /** Where the worker stands; exiting tells the drain after the main loop from the loop. */
  datatype Worker =
    | Down                                            // _rtw_down_sema
    | Gate                                            // RTW_CANNOT_RUN after the semaphore
    | Peek                                            // is the list empty?
    | Next                                            // label _next, RTW_CANNOT_RUN again
    | Dequeue
    | Holds(cmd: nat, phase: Phase, exiting: bool)
    | Stop                                            // left the loop, cmdthd_running still set
    | Drain
    | Exited

  datatype State = State(
    threads: seq<Thread>,
    cmds: seq<Cmd>,
    ctxs: seq<Ctx>,
    queue: seq<nat>,
    sema: nat,
    running: bool,
    cannotRun: bool,
    mutex: Mutex,
    worker: Worker,
    accepted: seq<nat>,   // history: commands in the order they were put on the list
    finished: seq<nat>)   // history: commands in the order they left it for good

  /** lps: the build has CONFIG_LPS_LCLK, so the worker may put a command back. */
  datatype Config = Config(lps: bool)

  predicate IsInitial(s: State) {
    && |s.threads| == |s.cmds| == |s.ctxs|
    && (forall i :: 0 <= i < |s.threads| ==>
          && s.threads[i].pc == Preparing
          && s.cmds[i] == Cmd(true, if s.threads[i].waits then Some(i) else None)
          && s.ctxs[i] == Ctx(Submitted, false))
    && s.queue == [] && s.sema == 0 && s.running && s.mutex == Free && s.worker == Down
    && s.accepted == [] && s.finished == []
  }

  /* ---------- Steps ---------- */

  /** What the rest of the driver does: set bDriverStopped or bSurpriseRemoved; raise the
    * semaphore in rtw_stop_cmd_thread. */
  datatype EnvStep = StopDriver | RaiseSema

  /** What a submitting thread does.  Reject: rtw_cmd_filter failed, so the command is freed
    * and the thread returns. */
  datatype ThreadStep =
    | Reject | Accept | Insert | Up | WakeDone | WakeTimeout | Lock | Test | Clear | Release

  /** What the worker does in its loop and in the drain after it.  DownFail: the wait was
    * interrupted.  PutBack: rtw_register_cmd_alive failed, back to the head of the list.
    * Run: executed, or refused, with this outcome. */
  datatype LoopStep =
    | DownSema | DownFail | PassGate | LeaveLoop | PeekEmpty | PeekFull | PassNext
    | Take | TakeEmpty | PutBack | Run(out: Status)
    | ClearRunning | DrainTake | DrainEmpty

  /** What the worker does from post_process on. */
  datatype SettleStep =
    | WorkerLock | ReadNull | ReadCtx | SetStatus | Signal | SetNull | WorkerUnlock | Kill

  datatype Step = Env(e: EnvStep) | Submit(i: nat, t: ThreadStep) | Loop(l: LoopStep) | Settle(k: SettleStep)

  predicate ThreadEnabled(s: State, i: nat, t: ThreadStep) {
    |s.threads| == |s.cmds| == |s.ctxs| && i < |s.threads| &&
    var pc := s.threads[i].pc;
    match t
    case Reject => pc == Preparing
    case Accept => pc == Preparing && s.running
    case Insert => pc == Checked
    case Up => pc == Inserted
    case WakeDone => pc == Waiting && s.ctxs[i].done
    case WakeTimeout => pc == Waiting
    case Lock => pc == Woken && s.mutex == Free
    case Test => pc == Locked
    case Clear => pc == Clearing
    case Release => pc == Unlocking
  }

  predicate LoopEnabled(c: Config, s: State, l: LoopStep) {
    match l
    case DownSema => s.worker.Down? && s.sema > 0
    case DownFail => s.worker.Down?
    case PassGate => s.worker.Gate? && !s.cannotRun
    case LeaveLoop => (s.worker.Gate? || s.worker.Next?) && s.cannotRun
    case PeekEmpty => s.worker.Peek? && s.queue == []
    case PeekFull => s.worker.Peek? && s.queue != []
    case PassNext => s.worker.Next? && !s.cannotRun
    case Take => s.worker.Dequeue? && s.queue != []
    case TakeEmpty => s.worker.Dequeue? && s.queue == []
    case PutBack => s.worker.Holds? && s.worker.phase.Have? && c.lps
    case Run(out) => s.worker.Holds? && s.worker.phase.Have? && (out == Success || out == CmdError)
    case ClearRunning => s.worker.Stop?
    case DrainTake => s.worker.Drain? && s.queue != []
    case DrainEmpty => s.worker.Drain? && s.queue == []
  }

  /** The bounds on the worker's indices hold in every reachable state; they only keep
    * SettleApply well defined. */
  predicate SettleEnabled(s: State, k: SettleStep) {
    s.worker.Holds? && s.worker.cmd < |s.cmds| &&
    match k
    case WorkerLock => s.worker.phase.Post? && s.mutex == Free
    case ReadNull => s.worker.phase.Read? && s.cmds[s.worker.cmd].sctx.None?
    case ReadCtx => s.worker.phase.Read? && s.cmds[s.worker.cmd].sctx.Some?
    case SetStatus => s.worker.phase.Stat? && s.worker.phase.ctx < |s.ctxs|
    case Signal => s.worker.phase.Complete? && s.worker.phase.ctx < |s.ctxs|
    case SetNull => s.worker.phase.Null?
    case WorkerUnlock => s.worker.phase.Unlock?
    case Kill => s.worker.phase.Dispose?
  }

  predicate Enabled(c: Config, s: State, a: Step) {
    match a
    case Env(_) => true
    case Submit(i, t) => ThreadEnabled(s, i, t)
    case Loop(l) => LoopEnabled(c, s, l)
    case Settle(k) => SettleEnabled(s, k)
  }

  function SetPc(s: State, i: nat, pc: ThreadPc): State
    requires i < |s.threads|
  {
    s.(threads := s.threads[i := s.threads[i].(pc := pc)])
  }

  function ThreadApply(s: State, i: nat, t: ThreadStep): State
    requires ThreadEnabled(s, i, t)
  {
    match t
    case Reject => SetPc(s, i, Returned).(cmds := s.cmds[i := s.cmds[i].(alive := false)])
    case Accept => SetPc(s, i, Checked)
    case Insert => SetPc(s, i, Inserted).(queue := s.queue + [i], accepted := s.accepted + [i])
    case Up => SetPc(s, i, if s.threads[i].waits then Waiting else Returned).(sema := s.sema + 1)
    case WakeDone => SetPc(s, i, Woken)
    case WakeTimeout => SetPc(s, i, Woken)
    case Lock => SetPc(s, i, Locked).(mutex := ByThread(i))
    case Test => SetPc(s, i, if s.ctxs[i].status == Submitted then Clearing else Unlocking)
    case Clear => SetPc(s, i, Unlocking).(cmds := s.cmds[i := s.cmds[i].(sctx := None)])
    case Release => SetPc(s, i, Returned).(mutex := Free)
  }

  function LoopApply(c: Config, s: State, l: LoopStep): State
    requires LoopEnabled(c, s, l)
  {
    match l
    case DownSema => s.(sema := s.sema - 1, worker := Gate)
    case DownFail => s.(worker := Stop)
    case PassGate => s.(worker := Peek)
    case LeaveLoop => s.(worker := Stop)
    case PeekEmpty => s.(worker := Down)
    case PeekFull => s.(worker := Next)
    case PassNext => s.(worker := Dequeue)
    case Take => s.(queue := s.queue[1..], worker := Holds(s.queue[0], Have, false))
    case TakeEmpty => s.(worker := Down)
    case PutBack => s.(queue := [s.worker.cmd] + s.queue, worker := Down)
    case Run(out) => s.(worker := Holds(s.worker.cmd, Post(out), false))
    case ClearRunning => s.(running := false, worker := Drain)
    case DrainTake => s.(queue := s.queue[1..], worker := Holds(s.queue[0], Post(CmdDrop), true))
    case DrainEmpty => s.(worker := Exited)
  }

  function SettleApply(s: State, k: SettleStep): State
    requires SettleEnabled(s, k)
  {
    var w := s.worker;
    match k
    case WorkerLock => s.(mutex := ByWorker, worker := w.(phase := Read(w.phase.out)))
    case ReadNull => s.(worker := w.(phase := Unlock))
    case ReadCtx => s.(worker := w.(phase := Stat(w.phase.out, s.cmds[w.cmd].sctx.value)))
    case SetStatus =>
      var x := w.phase.ctx;
      s.(ctxs := s.ctxs[x := s.ctxs[x].(status := w.phase.out)], worker := w.(phase := Complete(x)))
    case Signal =>
      var x := w.phase.ctx;
      s.(ctxs := s.ctxs[x := s.ctxs[x].(done := true)], worker := w.(phase := Null))
    case SetNull =>
      s.(cmds := s.cmds[w.cmd := s.cmds[w.cmd].(sctx := None)], worker := w.(phase := Unlock))
    case WorkerUnlock => s.(mutex := Free, worker := w.(phase := Dispose))
    case Kill =>
      s.(cmds := s.cmds[w.cmd := s.cmds[w.cmd].(alive := false)],
         finished := s.finished + [w.cmd],
         worker := if w.exiting then Drain else Next)
  }

  function Apply(c: Config, s: State, a: Step): State
    requires Enabled(c, s, a)
  {
    match a
    case Env(StopDriver) => s.(cannotRun := true)
    case Env(RaiseSema) => s.(sema := s.sema + 1)
    case Submit(i, t) => ThreadApply(s, i, t)
    case Loop(l) => LoopApply(c, s, l)
    case Settle(k) => SettleApply(s, k)
  }

  /** The objects whose memory a step reads or writes. */
  datatype Object = CmdObj(c: nat) | CtxObj(x: nat)

  function ListObjects(s: State): set<Object> {
    set j | j in s.queue :: CmdObj(j)
  }

  function HeldCmd(w: Worker): nat {
    if w.Holds? then w.cmd else 0
  }

  function HeldCtx(w: Worker): nat {
    if w.Holds? && (w.phase.Stat? || w.phase.Complete?) then w.phase.ctx else 0
  }

  function Touches(s: State, a: Step): set<Object> {
    match a
    case Env(_) => {}
    case Submit(i, t) =>
      (match t
       case Reject => {CmdObj(i)}
       case Accept => {CmdObj(i)}
       case Insert => {CmdObj(i)} + ListObjects(s)   // the links of its neighbours
       case Up => {}
       case WakeDone => {CtxObj(i)}
       case WakeTimeout => {CtxObj(i)}
       case Lock => {}
       case Test => {CtxObj(i)}
       case Clear => {CmdObj(i)}
       case Release => {CtxObj(i)})
    case Loop(l) =>
      (match l
       case Take => ListObjects(s)
       case DrainTake => ListObjects(s)
       case PutBack => {CmdObj(HeldCmd(s.worker))} + ListObjects(s)
       case Run(_) => {CmdObj(HeldCmd(s.worker))}
       case _ => {})
    case Settle(k) =>
      (match k
       case SetStatus => {CmdObj(HeldCmd(s.worker)), CtxObj(HeldCtx(s.worker))}
       case Signal => {CmdObj(HeldCmd(s.worker)), CtxObj(HeldCtx(s.worker))}
       case _ => {CmdObj(HeldCmd(s.worker))})
  }

  /** A command is live until freed; a submit context until its thread returns. */
  predicate Live(s: State, o: Object) {
    match o
    case CmdObj(c) => c < |s.cmds| && s.cmds[c].alive
    case CtxObj(x) => x < |s.threads| && s.threads[x].waits && s.threads[x].pc != Returned
  }

  /* ---------- Runs ---------- */

  /** Some state after performing the steps in order, or None when one is not enabled. */
  function Exec(c: Config, s: State, steps: seq<Step>): Option<State>
    decreases |steps|
  {
    if steps == [] then Some(s)
    else if Enabled(c, s, steps[0]) then Exec(c, Apply(c, s, steps[0]), steps[1..])
    else None
  }

  /** s is reached from an initial state by some run. */
  ghost predicate Reachable(c: Config, s: State) {
    exists s0: State, steps: seq<Step> :: IsInitial(s0) && Exec(c, s0, steps) == Some(s)
  }

  /* ---------- Invariant ---------- */

  /** The command the worker has taken off the list and not yet freed. */
  function InHand(w: Worker): seq<nat> {
    if w.Holds? then [w.cmd] else []
  }

  /** The worker is between WorkerLock and WorkerUnlock. */
  predicate InCritical(w: Worker) {
    w.Holds? && (w.phase.Read? || w.phase.Stat? || w.phase.Complete? || w.phase.Null? || w.phase.Unlock?)
  }

  predicate UnderLock(pc: ThreadPc) { pc == Locked || pc == Clearing || pc == Unlocking }

  predicate NotOnList(pc: ThreadPc) { pc == Preparing || pc == Checked }

  /** The thread may still take its pointer back. */
  predicate Pending(pc: ThreadPc) {
    pc == Inserted || pc == Waiting || pc == Woken || pc == Locked || pc == Clearing
  }

  /** Order: what was accepted is what left, then what the worker holds, then the list. */
  ghost predicate OrderInv(s: State) {
    && s.accepted == s.finished + InHand(s.worker) + s.queue
    && Distinct(s.accepted)
    && (forall i :: i in s.accepted ==> i < |s.threads| && !NotOnList(s.threads[i].pc))
  }

  /** The mutex is held by exactly the one that is in its critical section. */
  predicate MutexInv(s: State) {
    && (InCritical(s.worker) <==> s.mutex == ByWorker)
    && (forall i :: 0 <= i < |s.threads| ==> (UnderLock(s.threads[i].pc) <==> s.mutex == ByThread(i)))
  }

  /** What holds of thread i, its command and its context. */
  predicate ThreadInv(s: State, i: nat)
    requires |s.threads| == |s.cmds| == |s.ctxs| && i < |s.threads|
  {
    var t, m, x := s.threads[i], s.cmds[i], s.ctxs[i];
    && (t.pc == Waiting || t.pc == Woken || UnderLock(t.pc) ==> t.waits)
    && (NotOnList(t.pc) ==>
          m.alive && m.sctx == (if t.waits then Some(i) else None) && x.status == Submitted)
    && (Pending(t.pc) || t.pc == Unlocking ==> i in s.accepted)
    // once accepted, a command stays allocated until it is finished
    && (i in s.accepted ==> (m.alive <==> i !in s.finished))
    // a pointer in a live command names the submitting thread's own, live context
    && (m.sctx.Some? && m.alive ==> m.sctx.value == i && t.waits && t.pc != Returned && t.pc != Unlocking)
    // while the status word says submitted, the worker has not disposed of the command
    && (t.waits && Pending(t.pc) && x.status == Submitted ==> m.alive && m.sctx == Some(i))
    && (t.pc == Clearing ==> x.status == Submitted)
    // a status is posted only while the worker is about to take the pointer back
    && (m.alive && m.sctx.Some? && x.status != Submitted ==>
          s.worker.Holds? && (s.worker.phase.Complete? || s.worker.phase.Null?) && s.worker.cmd == i)
  }

  /** What holds of the command and context the worker is working on. */
  predicate WorkerInv(s: State)
    requires |s.threads| == |s.cmds| == |s.ctxs|
  {
    && (s.worker.Drain? || s.worker.Exited? || (s.worker.Holds? && s.worker.exiting) ==> !s.running)
    && (s.worker.Holds? ==>
      var c, p := s.worker.cmd, s.worker.phase;
      && (p.Post? || p.Read? || p.Stat? ==> p.out != Submitted)
      && (p.Stat? || p.Complete? ==> p.ctx == c)
      && (p.Stat? || p.Complete? || p.Null? ==> c < |s.cmds| && s.cmds[c].sctx == Some(c))
      && (p.Complete? || p.Null? ==> c < |s.cmds| && s.ctxs[c].status != Submitted)
      && (p.Unlock? || p.Dispose? ==> c < |s.cmds| && s.cmds[c].sctx == None))
  }

  ghost predicate Inv(s: State) {
    && |s.threads| == |s.cmds| == |s.ctxs|
    && OrderInv(s)
    && MutexInv(s)
    && (forall i :: 0 <= i < |s.threads| ==> ThreadInv(s, i))
    && WorkerInv(s)
  }

  lemma InvInitial(s: State)
    requires IsInitial(s)
    ensures Inv(s)
  {
  }

  /** The command in the worker's hands is allocated and in neither list. */
  lemma InHandAlive(s: State)
    requires Inv(s) && s.worker.Holds?
    ensures var c := s.worker.cmd;
      && c < |s.cmds| && s.cmds[c].alive
      && c in s.accepted && c !in s.finished && c !in s.queue
  {
    var c := s.worker.cmd;
    var n := |s.finished|;
    assert s.accepted[n] == c;
    assert forall k :: 0 <= k < n ==> s.accepted[k] == s.finished[k];
    assert forall k :: 0 <= k < |s.queue| ==> s.accepted[n + 1 + k] == s.queue[k];
    assert c in s.accepted;
    assert ThreadInv(s, c);
  }

  /** So are the commands on the list. */
  lemma QueuedAlive(s: State, j: nat)
    requires Inv(s) && j in s.queue
    ensures j < |s.cmds| && s.cmds[j].alive && j in s.accepted && j !in s.finished
  {
    var k :| 0 <= k < |s.queue| && s.queue[k] == j;
    var n := |s.finished| + |InHand(s.worker)|;
    assert s.accepted[n + k] == j;
    assert forall m :: 0 <= m < |s.finished| ==> s.accepted[m] == s.finished[m];
    assert j in s.accepted;
    assert ThreadInv(s, j);
  }

  /* Order */

  lemma OrderThreadStep(s: State, i: nat, t: ThreadStep)
    requires OrderInv(s) && ThreadEnabled(s, i, t)
    ensures OrderInv(ThreadApply(s, i, t))
  {
    var s' := ThreadApply(s, i, t);
    if t.Insert? {
      assert i !in s.accepted;
      assert s'.accepted == s'.finished + InHand(s'.worker) + s'.queue;
    }
  }

  /** What leaves the list passes through the worker's hands. */
  lemma LineKept(c: Config, s: State, l: LoopStep)
    requires LoopEnabled(c, s, l)
    ensures var s' := LoopApply(c, s, l);
      && InHand(s'.worker) + s'.queue == InHand(s.worker) + s.queue
      && s'.accepted == s.accepted && s'.finished == s.finished && s'.threads == s.threads
  {
    if s.queue != [] {
      assert s.queue == [s.queue[0]] + s.queue[1..];
    }
  }

  lemma OrderTransfer(s: State, s': State)
    requires OrderInv(s)
    requires InHand(s'.worker) + s'.queue == InHand(s.worker) + s.queue
    requires s'.accepted == s.accepted && s'.finished == s.finished && s'.threads == s.threads
    ensures OrderInv(s')
  {
    assert s.accepted == s.finished + (InHand(s.worker) + s.queue);
  }

  lemma OrderSettleStep(s: State, k: SettleStep)
    requires OrderInv(s) && SettleEnabled(s, k)
    ensures OrderInv(SettleApply(s, k))
  {
    var s' := SettleApply(s, k);
    assert s'.finished + InHand(s'.worker) == s.finished + InHand(s.worker);
  }

  /* Each thread, its command and its context */

  lemma ThreadThreadStep(s: State, i: nat, t: ThreadStep, j: nat)
    requires ThreadEnabled(s, i, t) && j < |s.threads|
    requires MutexInv(s) && ThreadInv(s, j) && (NotOnList(s.threads[j].pc) ==> j !in s.accepted && j !in s.finished)
    ensures ThreadInv(ThreadApply(s, i, t), j)
  {
    if i == j {
    } else {
      assert j in ThreadApply(s, i, t).accepted <==> j in s.accepted;
    }
  }

  lemma ThreadLoopStep(c: Config, s: State, l: LoopStep, j: nat)
    requires LoopEnabled(c, s, l) && |s.threads| == |s.cmds| == |s.ctxs| && j < |s.threads| && ThreadInv(s, j)
    ensures ThreadInv(LoopApply(c, s, l), j)
  {
  }

  lemma ThreadSettleStep(s: State, k: SettleStep, j: nat)
    requires Inv(s) && SettleEnabled(s, k) && j < |s.threads|
    ensures ThreadInv(SettleApply(s, k), j)
  {
    InHandAlive(s);
    assert ThreadInv(s, j);
    assert ThreadInv(s, s.worker.cmd);
  }

  /* The mutex and the worker */

  lemma WorkerThreadStep(s: State, i: nat, t: ThreadStep)
    requires ThreadEnabled(s, i, t) && MutexInv(s) && WorkerInv(s)
    ensures MutexInv(ThreadApply(s, i, t)) && WorkerInv(ThreadApply(s, i, t))
  {
  }

  lemma WorkerSettleStep(s: State, k: SettleStep)
    requires Inv(s) && SettleEnabled(s, k)
    ensures MutexInv(SettleApply(s, k)) && WorkerInv(SettleApply(s, k))
  {
    InHandAlive(s);
    assert ThreadInv(s, s.worker.cmd);
  }

  lemma EnvInv(c: Config, s: State, e: EnvStep)
    requires Inv(s)
    ensures Inv(Apply(c, s, Env(e)))
  {
    assert forall j :: 0 <= j < |s.threads| ==> ThreadInv(s, j) ==> ThreadInv(Apply(c, s, Env(e)), j);
  }

  lemma LoopInv(c: Config, s: State, l: LoopStep)
    requires Inv(s) && LoopEnabled(c, s, l)
    ensures Inv(LoopApply(c, s, l))
  {
    LineKept(c, s, l);
    OrderTransfer(s, LoopApply(c, s, l));
    forall j | 0 <= j < |s.threads| ensures ThreadInv(LoopApply(c, s, l), j) {
      ThreadLoopStep(c, s, l, j);
    }
  }

  lemma SubmitInv(s: State, i: nat, t: ThreadStep)
    requires Inv(s) && ThreadEnabled(s, i, t)
    ensures Inv(ThreadApply(s, i, t))
  {
    OrderThreadStep(s, i, t);
    WorkerThreadStep(s, i, t);
    forall j | 0 <= j < |s.threads| ensures ThreadInv(ThreadApply(s, i, t), j) {
      ThreadThreadStep(s, i, t, j);
    }
  }

  lemma SettleInv(s: State, k: SettleStep)
    requires Inv(s) && SettleEnabled(s, k)
    ensures Inv(SettleApply(s, k))
  {
    OrderSettleStep(s, k);
    WorkerSettleStep(s, k);
    forall j | 0 <= j < |s.threads| ensures ThreadInv(SettleApply(s, k), j) {
      ThreadSettleStep(s, k, j);
    }
  }

  lemma InvStep(c: Config, s: State, a: Step)
    requires Inv(s) && Enabled(c, s, a)
    ensures Inv(Apply(c, s, a))
  {
    match a
    case Env(e) => EnvInv(c, s, e);
    case Submit(i, t) => SubmitInv(s, i, t);
    case Loop(l) => LoopInv(c, s, l);
    case Settle(k) => SettleInv(s, k);
  }

  /** Every state of every run satisfies the invariant. */
  lemma {:induction false} InvRun(c: Config, s: State, steps: seq<Step>)
    requires Inv(s) && Exec(c, s, steps).Some?
    ensures Inv(Exec(c, s, steps).value)
    decreases |steps|
  {
    if steps != [] {
      InvStep(c, s, steps[0]);
      InvRun(c, Apply(c, s, steps[0]), steps[1..]);
    }
  }

  lemma InvReachable(c: Config, s: State)
    requires Reachable(c, s)
    ensures Inv(s)
  {
    var s0: State, steps: seq<Step> :| IsInitial(s0) && Exec(c, s0, steps) == Some(s);
    InvInitial(s0);
    InvRun(c, s0, steps);
  }

  /* ---------- Main results ---------- */

  lemma SubmitTouchesLive(s: State, i: nat, t: ThreadStep)
    requires Inv(s) && ThreadEnabled(s, i, t)
    ensures forall o :: o in Touches(s, Submit(i, t)) ==> Live(s, o)
  {
    assert ThreadInv(s, i);
    forall j | j in s.queue ensures Live(s, CmdObj(j)) {
      QueuedAlive(s, j);
    }
  }

  lemma WorkerTouchesLive(c: Config, s: State, a: Step)
    requires Inv(s) && Enabled(c, s, a) && (a.Loop? || a.Settle?)
    ensures forall o :: o in Touches(s, a) ==> Live(s, o)
  {
    if s.worker.Holds? {
      InHandAlive(s);
      assert ThreadInv(s, s.worker.cmd);
    }
    forall j | j in s.queue ensures Live(s, CmdObj(j)) {
      QueuedAlive(s, j);
    }
  }

  /** Memory safety of the handshake: in every interleaving of submitters, timeouts, worker
    * and drain, each step touches only commands not yet freed and submit contexts whose
    * thread has not returned; in particular nothing is freed twice. */
  lemma NoUseAfterFree(c: Config, s: State, a: Step)
    requires Reachable(c, s) && Enabled(c, s, a)
    ensures forall o :: o in Touches(s, a) ==> Live(s, o)
  {
    InvReachable(c, s);
    match a
    case Env(_) =>
    case Submit(i, t) => SubmitTouchesLive(s, i, t);
    case _ => WorkerTouchesLive(c, s, a);
  }

  /** Accepted commands leave the list for good exactly once and in acceptance order, head
    * re-insertion included: what has left is a prefix of what was accepted, the rest is
    * what the worker holds followed by the list, and nothing occurs twice. */
  lemma FifoExactlyOnce(c: Config, s: State)
    requires Reachable(c, s)
    ensures s.accepted == s.finished + InHand(s.worker) + s.queue
    ensures s.finished <= s.accepted
    ensures forall i, j :: 0 <= i < j < |s.accepted| ==> s.accepted[i] != s.accepted[j]
    ensures forall i :: 0 <= i < |s.cmds| ==>
      (i in s.finished ==> !s.cmds[i].alive) &&
      (i in s.accepted && i !in s.finished ==> s.cmds[i].alive)
  {
    InvReachable(c, s);
    forall i | 0 <= i < |s.cmds|
      ensures i in s.finished ==> !s.cmds[i].alive
      ensures i in s.accepted && i !in s.finished ==> s.cmds[i].alive
    {
      assert ThreadInv(s, i);
      if i in s.finished {
        var k :| 0 <= k < |s.finished| && s.finished[k] == i;
        assert s.accepted[k] == i;
      }
    }
  }

  /** A command that was not accepted is gone once its thread has left the filter. */
  predicate NotKept(s: State, i: nat) {
    |s.threads| == |s.cmds| == |s.ctxs| && i < |s.threads| &&
    (NotOnList(s.threads[i].pc) || i in s.accepted || !s.cmds[i].alive)
  }

  lemma NotKeptSubmitStep(s: State, j: nat, t: ThreadStep, i: nat)
    requires NotKept(s, i) && ThreadEnabled(s, j, t)
    requires i == j && Pending(s.threads[i].pc) ==> i in s.accepted
    ensures NotKept(ThreadApply(s, j, t), i)
  {
    assert i in s.accepted ==> i in ThreadApply(s, j, t).accepted;
  }

  lemma NotKeptLoopStep(c: Config, s: State, l: LoopStep, i: nat)
    requires NotKept(s, i) && LoopEnabled(c, s, l)
    ensures NotKept(LoopApply(c, s, l), i)
  {
  }

  lemma NotKeptSettleStep(s: State, k: SettleStep, i: nat)
    requires NotKept(s, i) && SettleEnabled(s, k)
    ensures NotKept(SettleApply(s, k), i)
  {
  }

  lemma NotKeptStep(c: Config, s: State, a: Step, i: nat)
    requires Inv(s) && NotKept(s, i) && Enabled(c, s, a)
    ensures NotKept(Apply(c, s, a), i)
  {
    hide OrderInv, MutexInv, WorkerInv, ThreadApply, LoopApply, SettleApply, ThreadEnabled, LoopEnabled, SettleEnabled;
    assert ThreadInv(s, i);
    match a
    case Env(_) =>
    case Submit(j, t) => NotKeptSubmitStep(s, j, t, i);
    case Loop(l) => NotKeptLoopStep(c, s, l, i);
    case Settle(k) => NotKeptSettleStep(s, k, i);
  }

  lemma {:induction false} NotKeptRun(c: Config, s: State, steps: seq<Step>, i: nat)
    requires Inv(s) && NotKept(s, i) && Exec(c, s, steps).Some?
    ensures NotKept(Exec(c, s, steps).value, i)
    decreases |steps|
  {
    hide Inv, NotKept;
    if steps != [] {
      InvStep(c, s, steps[0]);
      NotKeptStep(c, s, steps[0], i);
      NotKeptRun(c, Apply(c, s, steps[0]), steps[1..], i);
    }
  }

  lemma {:induction false} SameThreads(c: Config, s: State, steps: seq<Step>)
    requires Exec(c, s, steps).Some?
    ensures |Exec(c, s, steps).value.threads| == |s.threads|
    decreases |steps|
  {
    if steps != [] {
      SameThreads(c, Apply(c, s, steps[0]), steps[1..]);
    }
  }

  /** No command leaks: in every reachable state exactly those are allocated that a thread has
    * still to bring to the list, or that were accepted and have not left it for good. */
  lemma AllocatedIff(c: Config, s: State, i: nat)
    requires Reachable(c, s) && i < |s.threads|
    ensures i < |s.cmds|
    ensures s.cmds[i].alive <==> NotOnList(s.threads[i].pc) || (i in s.accepted && i !in s.finished)
  {
    hide Exec;
    var s0: State, steps: seq<Step> :| IsInitial(s0) && Exec(c, s0, steps) == Some(s);
    InvInitial(s0);
    SameThreads(c, s0, steps);
    NotKeptRun(c, s0, steps, i);
    InvReachable(c, s);
    assert ThreadInv(s, i);
  }

  /* ---------- What a waiter is told ---------- */

  /** The story of command i on the steps of a run alone: how it was last settled, executed with
    * some outcome or dropped by the drain, whether its context's status word was written, and
    * whether its completion was signalled. */
  datatype Story = Story(out: Option<Status>, told: bool, signalled: bool)

  const UNTOLD := Story(None, false, false)

  function Continued(s: State, a: Step, i: nat, r: Story): Story {
    if a.Loop? && a.l.Run? && InHand(s.worker) == [i] then r.(out := Some(a.l.out))
    else if a.Loop? && a.l.DrainTake? && s.queue != [] && s.queue[0] == i then r.(out := Some(CmdDrop))
    else if a.Settle? && a.k.SetStatus? && InHand(s.worker) == [i] then r.(told := true)
    else if a.Settle? && a.k.Signal? && InHand(s.worker) == [i] then r.(signalled := true)
    else r
  }

  function StoryOf(c: Config, s: State, steps: seq<Step>, i: nat, r: Story): Story
    requires Exec(c, s, steps).Some?
    decreases |steps|
  {
    if steps == [] then r else StoryOf(c, Apply(c, s, steps[0]), steps[1..], i, Continued(s, steps[0], i, r))
  }

  /** The context says what the story says, and no more. */
  predicate Told(s: State, i: nat, r: Story) {
    && i < |s.ctxs|
    && (r.told ==> r.out.Some?) && (r.signalled ==> r.told) && r.out != Some(Submitted)
    && s.ctxs[i].status == (if r.told then r.out.value else Submitted)
    && (s.ctxs[i].done <==> r.signalled)
  }

  /** The worker past the writing of the status word. */
  predicate PastStatus(w: Worker) {
    w.Holds? && (w.phase.Complete? || w.phase.Null? || w.phase.Unlock? || w.phase.Dispose?)
  }

  /** What the worker carries is the outcome of the command it holds, which is not told yet; only
    * commands that left, or are about to, have been told. */
  predicate StoryInv(s: State, i: nat, r: Story) {
    && Told(s, i, r)
    && (s.worker.Holds? && s.worker.cmd == i ==>
          var p := s.worker.phase;
          && (p.Post? || p.Read? || p.Stat? ==> r.out == Some(p.out))
          && (p.Complete? ==> r.told))
    && (r.told ==> i in s.finished || (PastStatus(s.worker) && s.worker.cmd == i))
  }

  lemma StorySubmitStep(s: State, j: nat, t: ThreadStep, i: nat, r: Story)
    requires StoryInv(s, i, r) && ThreadEnabled(s, j, t)
    ensures StoryInv(ThreadApply(s, j, t), i, r)
  {
  }

  lemma StoryLoopStep(c: Config, s: State, l: LoopStep, i: nat, r: Story)
    requires Inv(s) && StoryInv(s, i, r) && LoopEnabled(c, s, l)
    ensures StoryInv(LoopApply(c, s, l), i, Continued(s, Loop(l), i, r))
  {
    if s.worker.Holds? { InHandAlive(s); }
    if i in s.queue { QueuedAlive(s, i); }
  }

  lemma StorySettleStep(s: State, k: SettleStep, i: nat, r: Story)
    requires Inv(s) && StoryInv(s, i, r) && SettleEnabled(s, k)
    ensures StoryInv(SettleApply(s, k), i, Continued(s, Settle(k), i, r))
  {
    InHandAlive(s);
  }

  lemma StoryStep(c: Config, s: State, a: Step, i: nat, r: Story)
    requires Inv(s) && StoryInv(s, i, r) && Enabled(c, s, a)
    ensures StoryInv(Apply(c, s, a), i, Continued(s, a, i, r))
  {
    hide Inv;
    match a
    case Env(_) =>
    case Submit(j, t) => StorySubmitStep(s, j, t, i, r);
    case Loop(l) => StoryLoopStep(c, s, l, i, r);
    case Settle(k) => StorySettleStep(s, k, i, r);
  }

  lemma {:induction false} StoryRun(c: Config, s: State, steps: seq<Step>, i: nat, r: Story)
    requires Inv(s) && StoryInv(s, i, r) && Exec(c, s, steps).Some?
    ensures StoryInv(Exec(c, s, steps).value, i, StoryOf(c, s, steps, i, r))
    decreases |steps|
  {
    hide Inv, StoryInv, Continued;
    if steps != [] {
      InvStep(c, s, steps[0]);
      StoryStep(c, s, steps[0], i, r);
      StoryRun(c, Apply(c, s, steps[0]), steps[1..], i, Continued(s, steps[0], i, r));
    }
  }

  /** In every run every submit context says exactly what its command's story says: submitted
    * until the worker has written the status word, then the outcome of the command; and its
    * completion is signalled only after that. */
  lemma WaiterIsToldOutcome(c: Config, s: State, steps: seq<Step>, i: nat)
    requires IsInitial(s) && i < |s.threads| && Exec(c, s, steps).Some?
    ensures var x, r := Exec(c, s, steps).value, StoryOf(c, s, steps, i, UNTOLD);
      && i < |x.ctxs| && (x.ctxs[i].done <==> r.signalled)
      && (if r.told then r.out == Some(x.ctxs[i].status) else x.ctxs[i].status == Submitted)
      && (r.signalled ==> r.told) && r.out != Some(Submitted)
  {
    hide Exec, StoryOf;
    InvInitial(s);
    StoryRun(c, s, steps, i, UNTOLD);
  }

  /* ---------- Stopping ---------- */

  /** How many commands a run executes. */
  function Executed(steps: seq<Step>): nat {
    if steps == [] then 0 else (if steps[0].Loop? && steps[0].l.Run? then 1 else 0) + Executed(steps[1..])
  }

  /** The worker has passed the last test before a command is taken off the list. */
  predicate PastTests(w: Worker) {
    w.Dequeue? || (w.Holds? && w.phase.Have?)
  }

  /** Once the driver is stopped the worker executes one more command at most, and that only when
    * it had already passed its tests. */
  lemma {:induction false} StopsExecuting(c: Config, s: State, steps: seq<Step>)
    requires s.cannotRun && Exec(c, s, steps).Some?
    ensures Executed(steps) <= if PastTests(s.worker) then 1 else 0
    ensures Exec(c, s, steps).value.cannotRun
    decreases |steps|
  {
    hide Apply, Enabled;
    if steps != [] {
      StopStep(c, s, steps[0]);
      StopsExecuting(c, Apply(c, s, steps[0]), steps[1..]);
    }
  }

  lemma StopStep(c: Config, s: State, a: Step)
    requires s.cannotRun && Enabled(c, s, a)
    ensures var t := Apply(c, s, a);
      && t.cannotRun && (PastTests(t.worker) ==> PastTests(s.worker))
      && (a.Loop? && a.l.Run? ==> PastTests(s.worker) && !PastTests(t.worker))
  {
    hide LoopApply, SettleApply, ThreadApply, LoopEnabled, SettleEnabled, ThreadEnabled, PastTests;
    match a
    case Env(_) =>
    case Submit(i, t) => StopSubmitStep(s, i, t);
    case Loop(l) => StopLoopStep(c, s, l);
    case Settle(k) => StopSettleStep(s, k);
  }

  lemma StopSubmitStep(s: State, i: nat, t: ThreadStep)
    requires ThreadEnabled(s, i, t)
    ensures ThreadApply(s, i, t).worker == s.worker && ThreadApply(s, i, t).cannotRun == s.cannotRun
  {
  }

  lemma StopLoopStep(c: Config, s: State, l: LoopStep)
    requires s.cannotRun && LoopEnabled(c, s, l)
    ensures var t := LoopApply(c, s, l);
      && t.cannotRun && (PastTests(t.worker) ==> PastTests(s.worker))
      && (l.Run? ==> PastTests(s.worker) && !PastTests(t.worker))
  {
  }

  lemma StopSettleStep(s: State, k: SettleStep)
    requires SettleEnabled(s, k)
    ensures SettleApply(s, k).cannotRun == s.cannotRun && !PastTests(SettleApply(s, k).worker)
  {
  }

  /** The worker has not left its loop. */
  predicate InLoop(w: Worker) {
    !w.Stop? && !w.Drain? && !w.Exited? && (w.Holds? ==> !w.exiting)
  }

  /** Steps that may end the loop: the driver is stopped, or a wait is interrupted. */
  predicate Disturbs(a: Step) {
    a == Env(StopDriver) || a == Loop(DownFail)
  }

  lemma LoopStays(c: Config, s: State, a: Step)
    requires InLoop(s.worker) && s.running && !s.cannotRun && Enabled(c, s, a) && !Disturbs(a)
    ensures var t := Apply(c, s, a); InLoop(t.worker) && t.running && !t.cannotRun
  {
    hide LoopApply, SettleApply, ThreadApply, LoopEnabled, SettleEnabled, ThreadEnabled, InLoop;
    match a
    case Env(_) =>
    case Submit(i, t) => DrainSubmitStep(s, i, t); StopSubmitStep(s, i, t);
    case Loop(l) => LoopStaysLoop(c, s, l);
    case Settle(k) => LoopStaysSettle(s, k);
  }

  lemma LoopStaysLoop(c: Config, s: State, l: LoopStep)
    requires InLoop(s.worker) && s.running && !s.cannotRun && LoopEnabled(c, s, l) && l != DownFail
    ensures var t := LoopApply(c, s, l); InLoop(t.worker) && t.running && !t.cannotRun
  {
  }

  lemma LoopStaysSettle(s: State, k: SettleStep)
    requires InLoop(s.worker) && SettleEnabled(s, k)
    ensures var t := SettleApply(s, k); InLoop(t.worker) && t.running == s.running && t.cannotRun == s.cannotRun
  {
  }

  /** Until then the worker serves: it does not leave its loop, and commands are let in. */
  lemma {:induction false} ServesUntilStopped(c: Config, s: State, steps: seq<Step>)
    requires InLoop(s.worker) && s.running && !s.cannotRun && Exec(c, s, steps).Some?
    requires forall a :: a in steps ==> !Disturbs(a)
    ensures var t := Exec(c, s, steps).value; InLoop(t.worker) && t.running && !t.cannotRun
    decreases |steps|
  {
    hide Apply, Enabled, InLoop;
    if steps != [] {
      assert steps[0] in steps;
      LoopStays(c, s, steps[0]);
      ServesUntilStopped(c, Apply(c, s, steps[0]), steps[1..]);
    }
  }

  /** After cmdthd_running was cleared the worker only drains. */
  predicate OnlyDrains(s: State) {
    !s.running ==>
      s.worker.Drain? || s.worker.Exited? || (s.worker.Holds? && s.worker.exiting && !s.worker.phase.Have?)
  }

  lemma DrainStep(c: Config, s: State, a: Step)
    requires OnlyDrains(s) && Enabled(c, s, a)
    ensures OnlyDrains(Apply(c, s, a)) && (!s.running ==> !Apply(c, s, a).running)
    ensures a.Loop? && a.l.Run? ==> s.running
  {
    hide LoopApply, SettleApply, ThreadApply, LoopEnabled, SettleEnabled, ThreadEnabled, OnlyDrains;
    match a
    case Env(_) => DrainOthers(s, Apply(c, s, a));
    case Submit(i, t) => DrainSubmitStep(s, i, t);
    case Loop(l) => DrainLoopStep(c, s, l);
    case Settle(k) => DrainSettleStep(s, k);
  }

  lemma DrainOthers(s: State, t: State)
    requires OnlyDrains(s) && t.worker == s.worker && t.running == s.running
    ensures OnlyDrains(t)
  {
  }

  lemma DrainSubmitStep(s: State, i: nat, t: ThreadStep)
    requires OnlyDrains(s) && ThreadEnabled(s, i, t)
    ensures OnlyDrains(ThreadApply(s, i, t)) && ThreadApply(s, i, t).running == s.running
  {
  }

  lemma DrainLoopStep(c: Config, s: State, l: LoopStep)
    requires OnlyDrains(s) && LoopEnabled(c, s, l)
    ensures OnlyDrains(LoopApply(c, s, l)) && (!s.running ==> !LoopApply(c, s, l).running)
    ensures l.Run? ==> s.running
  {
  }

  lemma DrainSettleStep(s: State, k: SettleStep)
    requires OnlyDrains(s) && SettleEnabled(s, k)
    ensures OnlyDrains(SettleApply(s, k)) && SettleApply(s, k).running == s.running
  {
  }

  lemma {:induction false} DrainRun(c: Config, s: State, steps: seq<Step>)
    requires OnlyDrains(s) && Exec(c, s, steps).Some?
    ensures OnlyDrains(Exec(c, s, steps).value)
    ensures !s.running ==> Executed(steps) == 0 && !Exec(c, s, steps).value.running
    decreases |steps|
  {
    hide Apply, Enabled, OnlyDrains;
    if steps != [] {
      DrainStep(c, s, steps[0]);
      DrainRun(c, Apply(c, s, steps[0]), steps[1..]);
    }
  }

  /** From the moment cmdthd_running is cleared no command is executed any more. */
  lemma NoneExecutedAfterClearing(c: Config, s: State, steps: seq<Step>)
    requires Reachable(c, s) && !s.running && Exec(c, s, steps).Some?
    ensures Executed(steps) == 0
  {
    hide Exec;
    var s0: State, before: seq<Step> :| IsInitial(s0) && Exec(c, s0, before) == Some(s);
    DrainRun(c, s0, before);
    DrainRun(c, s, steps);
  }

  /* ---------- Wakeups ---------- */

  /** The worker is neither blocked on the semaphore nor about to block. */
  predicate Draining(w: Worker) {
    w.Gate? || w.Peek? || w.Next? || w.Dequeue? || w.Holds?
  }

  predicate Leaving(w: Worker) {
    w.Stop? || w.Drain? || w.Exited? || (w.Holds? && w.exiting)
  }

  /** No wakeup is lost: a command on the list has someone who will look at it. */
  predicate WakeOk(s: State) {
    s.queue != [] ==>
      || s.sema > 0
      || (exists i :: 0 <= i < |s.threads| && s.threads[i].pc == Inserted)
      || Draining(s.worker)
      || Leaving(s.worker)
  }

  lemma WakeStep(c: Config, s: State, a: Step)
    requires !c.lps && WakeOk(s) && Enabled(c, s, a)
    ensures WakeOk(Apply(c, s, a))
  {
    var s' := Apply(c, s, a);
    match a
    case Env(_) =>
    case Submit(i, t) =>
      if t.Insert? {
        assert s'.threads[i].pc == Inserted;
      } else if t.Up? {
        assert s'.sema > 0;
      } else if s.queue != [] && s.sema == 0 && !Draining(s.worker) && !Leaving(s.worker) {
        var j :| 0 <= j < |s.threads| && s.threads[j].pc == Inserted;
        assert s'.threads[j].pc == Inserted;
      }
    case Loop(l) =>
    case Settle(k) =>
  }

  lemma {:induction false} WakeRun(c: Config, s: State, steps: seq<Step>)
    requires !c.lps && WakeOk(s) && Exec(c, s, steps).Some?
    ensures WakeOk(Exec(c, s, steps).value)
    decreases |steps|
  {
    if steps != [] {
      WakeStep(c, s, steps[0]);
      WakeRun(c, Apply(c, s, steps[0]), steps[1..]);
    }
  }

  /** One thread with one command that does not wait. */
  function Single(pc: ThreadPc, queue: seq<nat>, sema: nat, worker: Worker, accepted: seq<nat>): State {
    State([Thread(pc, false)], [Cmd(true, None)], [Ctx(Submitted, false)],
          queue, sema, true, false, Free, worker, accepted, [])
  }

  lemma SubmitOne()
    ensures Reachable(Config(true), Single(Returned, [0], 1, Down, [0]))
  {
    var c := Config(true);
    var s := Single(Preparing, [], 0, Down, []);
    assert Exec(c, s, []) == Some(s);
    ReachStep(c, s, Submit(0, Accept), Single(Checked, [], 0, Down, []));
    ReachStep(c, Single(Checked, [], 0, Down, []), Submit(0, Insert), Single(Inserted, [0], 0, Down, [0]));
    ReachStep(c, Single(Inserted, [0], 0, Down, [0]), Submit(0, Up), Single(Returned, [0], 1, Down, [0]));
  }

  /** With the power-save build the worker puts a command back without raising the
    * semaphore: one command, refused once, stays on the list of a blocked worker. */
  lemma LostWakeupWithLps()
    ensures var s := Single(Returned, [0], 0, Down, [0]); Reachable(Config(true), s) && !WakeOk(s)
  {
    var c := Config(true);
    SubmitOne();
    ReachStep(c, Single(Returned, [0], 1, Down, [0]), Loop(DownSema), Single(Returned, [0], 0, Gate, [0]));
    ReachStep(c, Single(Returned, [0], 0, Gate, [0]), Loop(PassGate), Single(Returned, [0], 0, Peek, [0]));
    ReachStep(c, Single(Returned, [0], 0, Peek, [0]), Loop(PeekFull), Single(Returned, [0], 0, Next, [0]));
    ReachStep(c, Single(Returned, [0], 0, Next, [0]), Loop(PassNext), Single(Returned, [0], 0, Dequeue, [0]));
    var held := Single(Returned, [], 0, Holds(0, Have, false), [0]);
    ReachStep(c, Single(Returned, [0], 0, Dequeue, [0]), Loop(Take), held);
    ReachStep(c, held, Loop(PutBack), Single(Returned, [0], 0, Down, [0]));
  }

  /** A run extended by one step. */
  lemma {:induction false} RunSnoc(c: Config, s: State, steps: seq<Step>, t: State, a: Step)
    requires Exec(c, s, steps) == Some(t) && Enabled(c, t, a)
    ensures Exec(c, s, steps + [a]) == Some(Apply(c, t, a))
    decreases |steps|
  {
    if steps == [] {
      assert Exec(c, Apply(c, s, a), []) == Some(Apply(c, s, a));
      assert (steps + [a])[1..] == [];
    } else {
      RunSnoc(c, Apply(c, s, steps[0]), steps[1..], t, a);
      assert (steps + [a])[1..] == steps[1..] + [a];
    }
  }

  lemma ReachStep(c: Config, s: State, a: Step, s': State)
    requires Reachable(c, s) && Enabled(c, s, a) && s' == Apply(c, s, a)
    ensures Reachable(c, s')
  {
    var s0: State, steps: seq<Step> :| IsInitial(s0) && Exec(c, s0, steps) == Some(s);
    RunSnoc(c, s0, steps, s, a);
  }

  /** No wakeup is lost in any run exactly when the build lacks CONFIG_LPS_LCLK. */
  lemma NoLostWakeup(c: Config)
    ensures (forall s: State :: Reachable(c, s) ==> WakeOk(s)) <==> !c.lps
  {
    if c.lps {
      LostWakeupWithLps();
      assert c == Config(true);
      assert !WakeOk(Single(Returned, [0], 0, Down, [0]));
    } else {
      forall s: State | Reachable(c, s) ensures WakeOk(s) {
        var s0: State, steps: seq<Step> :| IsInitial(s0) && Exec(c, s0, steps) == Some(s);
        WakeRun(c, s0, steps);
      }
    }
  }

  /* ---------- After the drain ---------- */

  lemma ExitedStep(c: Config, s: State, a: Step)
    requires Inv(s) && s.worker.Exited? && Enabled(c, s, a)
    ensures var t := Apply(c, s, a);
      && t.worker.Exited? && s.queue <= t.queue && t.finished == s.finished
      && ((forall i :: 0 <= i < |s.threads| ==> s.threads[i].pc != Checked) ==>
            t.queue == s.queue && forall i :: 0 <= i < |t.threads| ==> t.threads[i].pc != Checked)
  {
    match a
    case Env(_) =>
    case Submit(i, t) =>
      if t.Insert? {
        assert s.threads[i].pc == Checked;
      }
    case Loop(_) =>
    case Settle(_) =>
  }

  lemma {:induction false} ExitedRun(c: Config, s: State, steps: seq<Step>)
    requires Inv(s) && s.worker.Exited? && Exec(c, s, steps).Some?
    ensures var t := Exec(c, s, steps).value;
      && s.queue <= t.queue && t.finished == s.finished
      && ((forall i :: 0 <= i < |s.threads| ==> s.threads[i].pc != Checked) ==> t.queue == s.queue)
    decreases |steps|
  {
    if steps != [] {
      InvStep(c, s, steps[0]);
      ExitedStep(c, s, steps[0]);
      ExitedRun(c, Apply(c, s, steps[0]), steps[1..]);
    }
  }

  /** Clearing cmdthd_running is meant to keep commands from being queued after the drain.
    * It does so exactly when no thread is between its filter test and its insertion at the
    * moment the worker exits; what such a thread inserts stays on the list for ever. */
  lemma StrandedIff(c: Config, s: State)
    requires Reachable(c, s) && s.worker.Exited? && s.queue == []
    ensures (exists i :: 0 <= i < |s.threads| && s.threads[i].pc == Checked) <==>
            (exists steps :: Exec(c, s, steps).Some? && Exec(c, s, steps).value.queue != [])
    ensures forall steps :: Exec(c, s, steps).Some? ==> Exec(c, s, steps).value.finished == s.finished
  {
    InvReachable(c, s);
    forall steps | Exec(c, s, steps).Some?
      ensures Exec(c, s, steps).value.finished == s.finished
      ensures Exec(c, s, steps).value.queue != [] ==>
                exists i :: 0 <= i < |s.threads| && s.threads[i].pc == Checked
    {
      ExitedRun(c, s, steps);
    }
    if i :| 0 <= i < |s.threads| && s.threads[i].pc == Checked {
      var a := Submit(i, Insert);
      assert Exec(c, Apply(c, s, a), []) == Some(Apply(c, s, a));
      assert [a][1..] == [];
      assert Exec(c, s, [a]) == Some(Apply(c, s, a));
      assert Exec(c, s, [a]).value.queue == [i];
    }
  }

  /** That thread and its command after cmdthd_running was cleared. */
  function Stopping(pc: ThreadPc, queue: seq<nat>, sema: nat, worker: Worker): State {
    Single(pc, queue, sema, worker, queue).(running := false)
  }

  /** One thread passes the filter; the worker's wait is interrupted. */
  lemma Interrupted(c: Config)
    ensures Reachable(c, Single(Checked, [], 0, Stop, []))
  {
    var s := Single(Preparing, [], 0, Down, []);
    assert Exec(c, s, []) == Some(s);
    ReachStep(c, s, Submit(0, Accept), Single(Checked, [], 0, Down, []));
    ReachStep(c, Single(Checked, [], 0, Down, []), Loop(DownFail), Single(Checked, [], 0, Stop, []));
  }

  /** It drains the empty list. */
  lemma DrainedEarly(c: Config)
    ensures Reachable(c, Stopping(Checked, [], 0, Exited))
  {
    Interrupted(c);
    ReachStep(c, Single(Checked, [], 0, Stop, []), Loop(ClearRunning), Stopping(Checked, [], 0, Drain));
    ReachStep(c, Stopping(Checked, [], 0, Drain), Loop(DrainEmpty), Stopping(Checked, [], 0, Exited));
  }

  /** The thread then puts its command on the list, raises the semaphore and returns. */
  lemma StrandedCommand(c: Config)
    ensures Reachable(c, Stopping(Returned, [0], 1, Exited))
  {
    DrainedEarly(c);
    ReachStep(c, Stopping(Checked, [], 0, Exited), Submit(0, Insert), Stopping(Inserted, [0], 0, Exited));
    ReachStep(c, Stopping(Inserted, [0], 0, Exited), Submit(0, Up), Stopping(Returned, [0], 1, Exited));
  }
}
