/** The thread manager: start, stop, pause and resume, called by one controlling thread, against
    the loops of the worker threads. Every load and store of a shared field is a step. */
module Lifecycle {

  /** Capture, process and network worker. */
  const KINDS: nat := 3

  datatype Mode = Idle | Running | Stopped

  /** Where a thread is in `thread_wrapper`. */
  datatype Pc =
    | AtLoop      // about to read `running`
    | AtPause     // about to read `paused`
    | Sleeping
    | AtState     // about to read its state
    | AtCall      // about to begin a worker call
    | InCall
    | AtStop      // about to store STOPPED
    | AtReturn
    | Exited

  datatype Thread = Thread(kind: nat, pc: Pc)

  /** Where the controlling thread is. */
  datatype Control =
    | Resting
    | StartCheck | StartRunning | StartUnpause | StartState(i: nat) | StartCreate(i: nat)
    | StopCheck | StopRunning | StopJoin(i: nat) | StopState(i: nat) | StopReturn
    | PauseStore | ResumeStore

  datatype Request = Start | Stop | Pause | Resume

  /** `threads` holds every thread ever created; `handles[k]` is the last one of kind k. */
  datatype Manager = Manager(
    running: bool, paused: bool, states: seq<Mode>, handles: seq<nat>,
    threads: seq<Thread>, control: Control)

  datatype Step =
    | Call(request: Request)
    | Controls(creates: bool)  // `creates`: whether a thread creation in this step succeeds
    | Works(id: nat)

  function WorkerMoves(m: Manager, id: nat): Manager
    requires id < |m.threads| && m.threads[id].kind < |m.states|
  {
    var t := m.threads[id];
    match t.pc
    case AtLoop => m.(threads := m.threads[id := t.(pc := if m.running then AtPause else AtStop)])
    case AtPause => m.(threads := m.threads[id := t.(pc := if m.paused then Sleeping else AtState)])
    case Sleeping => m.(threads := m.threads[id := t.(pc := AtLoop)])
    case AtState => m.(threads := m.threads[id := t.(pc := if m.states[t.kind] == Running then AtCall else AtLoop)])
    case AtCall => m.(threads := m.threads[id := t.(pc := InCall)])
    case InCall => m.(threads := m.threads[id := t.(pc := AtLoop)])
    case AtStop => m.(threads := m.threads[id := t.(pc := AtReturn)], states := m.states[t.kind := Stopped])
    case AtReturn => m.(threads := m.threads[id := t.(pc := Exited)])
    case Exited => m
  }

  function ControlMoves(m: Manager, creates: bool): Manager
    requires |m.states| == KINDS && |m.handles| == KINDS
  {
    match m.control
    case Resting => m
    case StartCheck => m.(control := if m.running then Resting else StartRunning)
    case StartRunning => m.(running := true, control := StartUnpause)
    case StartUnpause => m.(paused := false, control := StartState(0))
    case StartState(i) =>
      if i >= KINDS then m.(control := Resting)
      else m.(states := m.states[i := Running], control := StartCreate(i))
    case StartCreate(i) =>
      if i >= KINDS then m.(control := Resting)
      else if !creates then m.(running := false, control := Resting)
      else m.(threads := m.threads + [Thread(i, AtLoop)], handles := m.handles[i := |m.threads|],
              control := if i + 1 < KINDS then StartState(i + 1) else Resting)
    case StopCheck => m.(control := if m.running then StopRunning else StopReturn)
    case StopRunning => m.(running := false, control := StopJoin(0))
    case StopJoin(i) => m.(control := StopState(i))
    case StopState(i) =>
      if i >= KINDS then m.(control := StopReturn)
      else m.(states := m.states[i := Stopped], control := if i + 1 < KINDS then StopJoin(i + 1) else StopReturn)
    case StopReturn => m.(control := Resting)
    case PauseStore => m.(paused := true, control := Resting)
    case ResumeStore => m.(paused := false, control := Resting)
  }

  ghost predicate Typed(m: Manager) {
    && |m.states| == KINDS && |m.handles| == KINDS
    && (forall t :: t in m.threads ==> t.kind < KINDS)
    && (match m.control
        case StartState(i) => i < KINDS
        case StartCreate(i) => i < KINDS
        case StopJoin(i) => i < KINDS
        case StopState(i) => i < KINDS
        case _ => true)
  }

  /** A join waits until the thread has exited. */
  ghost predicate Enabled(m: Manager, step: Step) {
    && Typed(m)
    && match step
       case Call(_) => m.control == Resting
       case Controls(_) =>
         && m.control != Resting
         && (m.control.StopJoin? ==>
               var h := m.handles[m.control.i]; h < |m.threads| && m.threads[h].pc == Exited)
       case Works(id) => id < |m.threads| && m.threads[id].pc != Exited
  }

  function Apply(m: Manager, step: Step): Manager
    requires Enabled(m, step)
  {
    match step
    case Call(Start) => m.(control := StartCheck)
    case Call(Stop) => m.(control := StopCheck)
    case Call(Pause) => m.(control := PauseStore)
    case Call(Resume) => m.(control := ResumeStore)
    case Controls(creates) => ControlMoves(m, creates)
    case Works(id) => WorkerMoves(m, id)
  }

  const NEW_MANAGER := Manager(false, false, [Idle, Idle, Idle], [0, 0, 0], [], Resting)

  /** A path: the steps taken and the states they lead through. */
  ghost predicate IsPath(steps: seq<Step>, run: seq<Manager>) {
    && |run| == |steps| + 1
    && forall i :: 0 <= i < |steps| ==> Enabled(run[i], steps[i]) && run[i + 1] == Apply(run[i], steps[i])
  }

  /** A run is a path from the new manager. */
  ghost predicate IsRun(steps: seq<Step>, run: seq<Manager>) {
    IsPath(steps, run) && run[0] == NEW_MANAGER
  }

  /** A way on from `m` on which start is not called again. */
  ghost predicate Continues(m: Manager, steps: seq<Step>, run: seq<Manager>) {
    IsPath(steps, run) && run[0] == m && Call(Start) !in steps
  }

  /** A way on from the end of a run makes a longer run. */
  lemma RunGoesOn(steps: seq<Step>, run: seq<Manager>, more: seq<Step>, tail: seq<Manager>)
    requires IsRun(steps, run) && Continues(run[|steps|], more, tail)
    ensures IsRun(steps + more, run + tail[1..])
    ensures (run + tail[1..])[|steps + more|] == tail[|more|]
  {
    var steps', run' := steps + more, run + tail[1..];
    forall i | 0 <= i < |steps'|
      ensures Enabled(run'[i], steps'[i]) && run'[i + 1] == Apply(run'[i], steps'[i])
    {
      if i >= |steps| {
        var j := i - |steps|;
        assert Enabled(tail[j], more[j]) && tail[j + 1] == Apply(tail[j], more[j]);
        assert run'[i] == tail[j] && run'[i + 1] == tail[j + 1];
      }
    }
  }

  // ---------------------------------------------------------------- live workers

  ghost predicate Live(m: Manager, id: nat) {
    id < |m.threads| && m.threads[id].pc != Exited
  }

  ghost predicate NoneLive(m: Manager, from: nat) {
    forall id: nat :: Live(m, id) ==> m.threads[id].kind < from
  }

  /** At most one worker thread of each kind has not exited. */
  ghost predicate OneLive(m: Manager) {
    forall a: nat, b: nat :: Live(m, a) && Live(m, b) && m.threads[a].kind == m.threads[b].kind ==> a == b
  }

  /** Live workers are the ones the handles name. */
  ghost predicate HandlesName(m: Manager)
    requires Typed(m)
  {
    forall id: nat :: Live(m, id) ==> m.handles[m.threads[id].kind] == id
  }

  /** While start creates threads, no worker of a kind still to come is live. */
  ghost predicate RoomToCreate(m: Manager) {
    match m.control
    case StartUnpause => NoneLive(m, 0)
    case StartState(i) => NoneLive(m, i)
    case StartCreate(i) => NoneLive(m, i)
    case _ => true
  }

  /** A start takes effect although a worker is live. */
  ghost predicate StartsTooEarly(m: Manager, step: Step) {
    step.Controls? && m.control == StartRunning && !NoneLive(m, 0)
  }

  /** A worker step changes that worker's position, and at most the state of its kind. */
  lemma WorkerFrame(m: Manager, id: nat)
    requires Enabled(m, Works(id))
    ensures var m' := WorkerMoves(m, id);
            && |m'.threads| == |m.threads| && m.threads[id] in m.threads
            && (forall j :: 0 <= j < |m.threads| ==> m'.threads[j].kind == m.threads[j].kind)
            && (forall j :: 0 <= j < |m.threads| && j != id ==> m'.threads[j] == m.threads[j])
            && (forall j: nat :: Live(m', j) ==> Live(m, j))
            && m' == m.(threads := m'.threads, states := m'.states)
            && (m'.states == m.states || (m.threads[id].pc == AtStop && m'.states == m.states[m.threads[id].kind := Stopped]))
            && Typed(m')
  {
  }

  lemma WorkerKeepsHandles(m: Manager, id: nat)
    requires Enabled(m, Works(id)) && HandlesName(m) && RoomToCreate(m)
    ensures var m' := WorkerMoves(m, id); Typed(m') && HandlesName(m') && RoomToCreate(m')
  {
    WorkerFrame(m, id);
  }

  lemma CreateKeepsHandles(m: Manager)
    requires Enabled(m, Controls(true)) && HandlesName(m) && RoomToCreate(m) && m.control.StartCreate?
    ensures var m' := ControlMoves(m, true); Typed(m') && HandlesName(m') && RoomToCreate(m')
  {
    var m' := ControlMoves(m, true);
    forall id: nat | Live(m', id)
      ensures m'.handles[m'.threads[id].kind] == id && m'.threads[id].kind < m.control.i + 1
    {
      if id < |m.threads| {
        assert Live(m, id);
      }
    }
  }

  lemma ControlKeepsHandles(m: Manager, creates: bool)
    requires Enabled(m, Controls(creates)) && HandlesName(m) && RoomToCreate(m)
    requires !StartsTooEarly(m, Controls(creates)) && (m.control.StartCreate? ==> !creates)
    ensures var m' := ControlMoves(m, creates); Typed(m') && HandlesName(m') && RoomToCreate(m')
  {
    var m' := ControlMoves(m, creates);
    assert |m'.threads| == |m.threads| && m'.handles == m.handles;
    assert forall j :: 0 <= j < |m.threads| ==> m'.threads[j].kind == m.threads[j].kind && m'.threads[j].pc == m.threads[j].pc;
    assert forall j: nat :: Live(m', j) <==> Live(m, j);
  }

  lemma StepKeepsHandles(m: Manager, step: Step)
    requires Enabled(m, step) && HandlesName(m) && RoomToCreate(m) && !StartsTooEarly(m, step)
    ensures var m' := Apply(m, step); Typed(m') && HandlesName(m') && RoomToCreate(m')
  {
    match step
    case Call(_) => SameThreads(m, Apply(m, step));
    case Controls(creates) =>
      if m.control.StartCreate? && creates {
        CreateKeepsHandles(m);
      } else {
        ControlKeepsHandles(m, creates);
      }
    case Works(id) => WorkerKeepsHandles(m, id);
  }

  /** At most one worker of each kind is ever live, whether or not thread creations succeed, as
      long as no start takes effect while a worker of an earlier start is live. */
  lemma {:induction false} OneLivePerKind(steps: seq<Step>, run: seq<Manager>, i: nat)
    requires IsRun(steps, run) && i < |run|
    requires forall j :: 0 <= j < |steps| ==> !StartsTooEarly(run[j], steps[j])
    ensures Typed(run[i]) && HandlesName(run[i]) && RoomToCreate(run[i]) && OneLive(run[i])
  {
    if i > 0 {
      OneLivePerKind(steps, run, i - 1);
      assert Enabled(run[i - 1], steps[i - 1]) && run[i - 1 + 1] == Apply(run[i - 1], steps[i - 1]);
      StepKeepsHandles(run[i - 1], steps[i - 1]);
    }
  }

  lemma SameThreads(m: Manager, m': Manager)
    requires Typed(m) && HandlesName(m)
    requires m' == m.(control := m'.control) && !m'.control.StartUnpause?
    requires !m'.control.StartState? && !m'.control.StartCreate? && !m'.control.StopJoin? && !m'.control.StopState?
    ensures Typed(m') && HandlesName(m') && RoomToCreate(m')
  {
    assert forall j: nat :: Live(m', j) <==> Live(m, j);
  }

  // ---------------------------------------------------------------- runs without failed creations

  /** Kind k has been created by the start in effect, and stop has not joined it. */
  ghost predicate InService(m: Manager, k: nat) {
    match m.control
    case StartUnpause => false
    case StartState(i) => k < i
    case StartCreate(i) => k < i
    case _ => m.running
  }

  /** Stop has joined the thread of kind k, or nothing is started. */
  ghost predicate OutOfService(m: Manager, k: nat) {
    match m.control
    case StartUnpause => true
    case StartState(i) => k >= i
    case StartCreate(i) => k >= i
    case StopJoin(i) => k < i
    case StopState(i) => k <= i
    case _ => !m.running
  }

  /** The worker of kind k has not seen `running` false, and its state is RUNNING. */
  ghost predicate Serving(m: Manager, k: nat)
    requires Typed(m) && k < KINDS
  {
    var h := m.handles[k];
    && m.states[k] == Running && h < |m.threads| && m.threads[h].kind == k
    && m.threads[h].pc != AtStop && m.threads[h].pc != AtReturn && m.threads[h].pc != Exited
  }

  ghost predicate ServiceInv(m: Manager)
    requires Typed(m)
  {
    && (m.control == StopRunning || m.control == StartUnpause || m.control.StartState? || m.control.StartCreate? ==> m.running)
    && (m.control == StartRunning || m.control.StopJoin? || m.control.StopState? || m.control == StopReturn ==> !m.running)
    && (forall k :: 0 <= k < KINDS && InService(m, k) ==> Serving(m, k))
    // out of service: no live worker
    && (forall id: nat :: Live(m, id) ==> !OutOfService(m, m.threads[id].kind))
    && StoppedStates(m)
  }

  /** States are STOPPED once stop has stored them, and stay so until the next start. */
  ghost predicate StoppedStates(m: Manager)
    requires Typed(m)
  {
    match m.control
    case StartUnpause => true
    case StartState(_) => true
    case StartCreate(i) => m.states[i] == Running
    case StopJoin(i) => m.threads != [] && forall k :: 0 <= k < i ==> m.states[k] == Stopped
    case StopState(i) => m.threads != [] && forall k :: 0 <= k < i ==> m.states[k] == Stopped
    case _ =>
      if m.running then m.threads != []
      else forall k :: 0 <= k < KINDS ==> m.states[k] == if m.threads == [] then Idle else Stopped
  }

  lemma WorkerKeepsServing(m: Manager, id: nat, k: nat)
    requires Enabled(m, Works(id)) && Typed(WorkerMoves(m, id))
    requires k < KINDS && Serving(m, k) && (m.running || m.handles[k] != id)
    requires m.threads[id].pc == AtStop ==> m.threads[id].kind != k
    ensures Serving(WorkerMoves(m, id), k)
  {
    WorkerFrame(m, id);
  }

  lemma WorkerKeepsService(m: Manager, id: nat)
    requires Enabled(m, Works(id)) && HandlesName(m) && ServiceInv(m)
    ensures var m' := WorkerMoves(m, id); Typed(m') && ServiceInv(m')
  {
    var m' := WorkerMoves(m, id);
    WorkerFrame(m, id);
    assert Live(m, id) && m.handles[m.threads[id].kind] == id;
    forall k | 0 <= k < KINDS && InService(m', k)
      ensures Serving(m', k)
    {
      assert Serving(m, k);
      WorkerKeepsServing(m, id, k);
    }
  }

  lemma NothingInServiceWhenOut(m: Manager)
    requires Typed(m) && ServiceInv(m) && (m.control == StartRunning || m.control == StopReturn)
    ensures NoneLive(m, 0)
  {
    forall id: nat | Live(m, id)
      ensures false
    {
      assert m.threads[id] in m.threads;
      assert OutOfService(m, m.threads[id].kind);
    }
  }

  lemma StartKeepsService(m: Manager)
    requires Enabled(m, Controls(true)) && HandlesName(m) && RoomToCreate(m) && ServiceInv(m)
    requires m.control.StartCheck? || m.control.StartRunning? || m.control.StartUnpause? || m.control.StartState?
    ensures var m' := ControlMoves(m, true); Typed(m') && ServiceInv(m')
  {
    var m' := ControlMoves(m, true);
    assert m'.threads == m.threads;
    assert forall j: nat :: Live(m', j) <==> Live(m, j);
    forall k | 0 <= k < KINDS && InService(m', k)
      ensures Serving(m', k)
    {
      assert Serving(m, k);
    }
  }

  lemma CreateKeepsService(m: Manager)
    requires Enabled(m, Controls(true)) && HandlesName(m) && RoomToCreate(m) && ServiceInv(m)
    requires m.control.StartCreate?
    ensures var m' := ControlMoves(m, true); Typed(m') && ServiceInv(m')
  {
    var m' := ControlMoves(m, true);
    assert forall j: nat :: j < |m.threads| ==> (Live(m', j) <==> Live(m, j));
    assert forall j :: 0 <= j < |m.threads| ==> m'.threads[j] == m.threads[j];
    assert m'.threads != [];
    forall k | 0 <= k < KINDS && InService(m', k)
      ensures Serving(m', k)
    {
      assert k == m.control.i || Serving(m, k);
    }
  }

  lemma StopKeepsService(m: Manager, creates: bool)
    requires Enabled(m, Controls(creates)) && HandlesName(m) && ServiceInv(m)
    requires m.control.StopCheck? || m.control.StopRunning? || m.control.StopJoin? || m.control.StopState? || m.control.StopReturn?
    ensures var m' := ControlMoves(m, creates); Typed(m') && ServiceInv(m')
  {
    var m' := ControlMoves(m, creates);
    assert m'.threads == m.threads;
    assert forall j: nat :: Live(m', j) <==> Live(m, j);
    if m.control.StopJoin? {
      assert forall j: nat :: Live(m, j) && m.threads[j].kind == m.control.i ==> m.handles[m.control.i] == j;
    }
    forall k | 0 <= k < KINDS && InService(m', k)
      ensures Serving(m', k)
    {
      assert Serving(m, k);
    }
  }

  lemma PauseKeepsService(m: Manager, creates: bool)
    requires Enabled(m, Controls(creates)) && ServiceInv(m)
    requires m.control.PauseStore? || m.control.ResumeStore?
    ensures var m' := ControlMoves(m, creates); Typed(m') && ServiceInv(m')
  {
    var m' := ControlMoves(m, creates);
    assert forall j: nat :: Live(m', j) <==> Live(m, j);
    assert forall j :: 0 <= j < |m.threads| ==> m'.threads[j].kind == m.threads[j].kind && m'.threads[j].pc == m.threads[j].pc;
    forall k | 0 <= k < KINDS && InService(m', k)
      ensures Serving(m', k)
    {
      assert Serving(m, k);
    }
  }

  lemma CallKeepsService(m: Manager, request: Request)
    requires Enabled(m, Call(request)) && ServiceInv(m)
    ensures var m' := Apply(m, Call(request)); Typed(m') && ServiceInv(m')
  {
    var m' := Apply(m, Call(request));
    assert forall j: nat :: Live(m', j) <==> Live(m, j);
    forall k | 0 <= k < KINDS && InService(m', k)
      ensures Serving(m', k)
    {
      assert Serving(m, k);
    }
  }

  /** Every thread creation of the run succeeds. */
  ghost predicate CreationsSucceed(steps: seq<Step>, run: seq<Manager>)
    requires |run| == |steps| + 1
  {
    forall j :: 0 <= j < |steps| && steps[j].Controls? && run[j].control.StartCreate? ==> steps[j].creates
  }

  lemma StepKeepsService(m: Manager, step: Step)
    requires Enabled(m, step) && HandlesName(m) && RoomToCreate(m) && ServiceInv(m)
    requires step.Controls? && m.control.StartCreate? ==> step.creates
    ensures !StartsTooEarly(m, step)
    ensures var m' := Apply(m, step); Typed(m') && HandlesName(m') && RoomToCreate(m') && ServiceInv(m')
  {
    match step
    case Call(request) =>
      StepKeepsHandles(m, step);
      CallKeepsService(m, request);
    case Works(id) =>
      StepKeepsHandles(m, step);
      WorkerKeepsService(m, id);
    case Controls(creates) =>
      if m.control == StartRunning {
        NothingInServiceWhenOut(m);
      }
      StepKeepsHandles(m, step);
      if m.control.StartCreate? {
        CreateKeepsService(m);
      } else if m.control.PauseStore? || m.control.ResumeStore? {
        PauseKeepsService(m, creates);
      } else if m.control.StartCheck? || m.control.StartRunning? || m.control.StartUnpause? || m.control.StartState? {
        StartKeepsService(m);
      } else {
        StopKeepsService(m, creates);
      }
  }

  lemma {:induction false} RunKeepsService(steps: seq<Step>, run: seq<Manager>, i: nat)
    requires IsRun(steps, run) && CreationsSucceed(steps, run) && i < |run|
    ensures Typed(run[i]) && HandlesName(run[i]) && RoomToCreate(run[i]) && ServiceInv(run[i])
  {
    if i > 0 {
      RunKeepsService(steps, run, i - 1);
      assert Enabled(run[i - 1], steps[i - 1]) && run[i - 1 + 1] == Apply(run[i - 1], steps[i - 1]);
      StepKeepsService(run[i - 1], steps[i - 1]);
    }
  }

  /** A start has taken effect and is still creating threads. */
  predicate Starting(c: Control) {
    c.StartUnpause? || c.StartState? || c.StartCreate?
  }

  /** Worker lifecycle: in every interleaving of start, stop, pause and resume with the worker
      loops in which thread creation succeeds,
      - at most one worker of each kind is live,
      - from the end of a start until stop clears `running`, all states are RUNNING: no late
        STOPPED store of an earlier worker overwrites them,
      - when stop returns, no worker is live, and the states are all STOPPED exactly if a start
        ever took effect before. */
  lemma WorkerLifecycle(steps: seq<Step>, run: seq<Manager>, i: nat)
    requires IsRun(steps, run) && CreationsSucceed(steps, run) && i < |run|
    ensures var m := run[i];
            && OneLive(m)
            && (m.running && !Starting(m.control) ==> m.states == [Running, Running, Running])
            && (m.control == StopReturn ==> NoneLive(m, 0))
            && (m.control == StopReturn ==> (m.states == [Stopped, Stopped, Stopped] <==> m.threads != []))
  {
    RunKeepsService(steps, run, i);
    var m := run[i];
    if m.control == StopReturn {
      NothingInServiceWhenOut(m);
      assert m.states[0] == m.states[1] == m.states[2] == if m.threads == [] then Idle else Stopped;
    }
    if m.running && !Starting(m.control) {
      assert InService(m, 0) && InService(m, 1) && InService(m, 2);
    }
  }

  // ---------------------------------------------------------------- ways on

  lemma Extend(steps: seq<Step>, run: seq<Manager>, step: Step) returns (steps': seq<Step>, run': seq<Manager>)
    requires IsPath(steps, run) && Enabled(run[|steps|], step)
    ensures IsPath(steps', run') && run'[0] == run[0]
    ensures steps' == steps + [step] && run'[|steps'|] == Apply(run[|steps|], step)
  {
    steps', run' := steps + [step], run + [Apply(run[|steps|], step)];
  }

  lemma StepKeepsTyped(m: Manager, step: Step)
    requires Enabled(m, step) && (m.control == StartRunning ==> !m.running)
    ensures var m' := Apply(m, step); Typed(m') && (m'.control == StartRunning ==> !m'.running)
  {
    if step.Works? {
      WorkerFrame(m, step.id);
    }
  }

  lemma {:induction false} RunKeepsTyped(steps: seq<Step>, run: seq<Manager>, i: nat)
    requires IsRun(steps, run) && i < |run|
    ensures Typed(run[i]) && (run[i].control == StartRunning ==> !run[i].running)
  {
    if i > 0 {
      RunKeepsTyped(steps, run, i - 1);
      assert Enabled(run[i - 1], steps[i - 1]) && run[i - 1 + 1] == Apply(run[i - 1], steps[i - 1]);
      StepKeepsTyped(run[i - 1], steps[i - 1]);
    }
  }

  /** The rest of a start that takes effect in `m`, with no worker step in between. */
  function FinishStart(m: Manager): Manager
    requires Typed(m) && m.control == StartRunning
  {
    var n := |m.threads|;
    m.(running := true, paused := false, states := [Running, Running, Running],
       handles := [n, n + 1, n + 2],
       threads := m.threads + [Thread(0, AtLoop), Thread(1, AtLoop), Thread(2, AtLoop)],
       control := Resting)
  }

  /** Two steps create the thread of kind `i`. */
  lemma CreateKind(steps: seq<Step>, run: seq<Manager>, i: nat) returns (steps': seq<Step>, run': seq<Manager>)
    requires IsPath(steps, run) && Call(Start) !in steps && i < KINDS
    requires Typed(run[|steps|]) && run[|steps|].control == StartState(i)
    ensures Continues(run[0], steps', run')
    ensures var m := run[|steps|];
            run'[|steps'|] == m.(states := m.states[i := Running], handles := m.handles[i := |m.threads|],
                                 threads := m.threads + [Thread(i, AtLoop)],
                                 control := if i + 1 < KINDS then StartState(i + 1) else Resting)
  {
    steps', run' := Extend(steps, run, Controls(true));
    steps', run' := Extend(steps', run', Controls(true));
  }

  /** A start that takes effect can run to its end without waiting for anyone. */
  lemma StartFinishes(steps: seq<Step>, run: seq<Manager>) returns (steps': seq<Step>, run': seq<Manager>)
    requires IsPath(steps, run) && Call(Start) !in steps
    requires Typed(run[|steps|]) && run[|steps|].control == StartRunning
    ensures Continues(run[0], steps', run') && run'[|steps'|] == FinishStart(run[|steps|])
  {
    var m := run[|steps|];
    var n := |m.threads|;
    steps', run' := Extend(steps, run, Controls(true));
    steps', run' := Extend(steps', run', Controls(true));
    steps', run' := CreateKind(steps', run', 0);
    steps', run' := CreateKind(steps', run', 1);
    steps', run' := CreateKind(steps', run', 2);
    assert m.states[0 := Running][1 := Running][2 := Running] == [Running, Running, Running];
    assert m.handles[0 := n][1 := n + 1][2 := n + 2] == [n, n + 1, n + 2];
    assert m.threads + [Thread(0, AtLoop)] + [Thread(1, AtLoop)] + [Thread(2, AtLoop)] == FinishStart(m).threads;
  }

  /** Steps a worker that finds `running` false still needs until it stores STOPPED. */
  function StopRank(pc: Pc): nat {
    match pc
    case AtPause => 5
    case AtState => 4
    case AtCall => 3
    case InCall => 2
    case Sleeping => 2
    case AtLoop => 1
    case _ => 0
  }

  /** `m'` is `m` but for the position of worker `id`. */
  ghost predicate OnlyMoved(m: Manager, m': Manager, id: nat) {
    && id < |m.threads| && |m'.threads| == |m.threads|
    && m' == m.(threads := m'.threads, states := m'.states) && |m'.states| == |m.states|
    && m'.threads[id].kind == m.threads[id].kind
    && forall j :: 0 <= j < |m.threads| && j != id ==> m'.threads[j] == m.threads[j]
  }

  lemma WorkerNearsStop(m: Manager, id: nat)
    requires Enabled(m, Works(id)) && !m.running && StopRank(m.threads[id].pc) > 0
    ensures var m' := WorkerMoves(m, id);
            && Typed(m') && OnlyMoved(m, m', id)
            && StopRank(m'.threads[id].pc) < StopRank(m.threads[id].pc)
            && m'.threads[id].pc != AtReturn && m'.threads[id].pc != Exited
  {
    WorkerFrame(m, id);
  }

  /** While `running` is false a worker can go on until it is about to store STOPPED. */
  lemma {:induction false} DriveToStop(steps: seq<Step>, run: seq<Manager>, id: nat) returns (steps': seq<Step>, run': seq<Manager>)
    requires IsPath(steps, run) && Call(Start) !in steps && Typed(run[|steps|])
    requires BeforeItsStore(run[|steps|], id) && !run[|steps|].running
    ensures Continues(run[0], steps', run') && Typed(run'[|steps'|])
    ensures OnlyMoved(run[|steps|], run'[|steps'|], id) && run'[|steps'|].threads[id].pc == AtStop
    decreases StopRank(run[|steps|].threads[id].pc)
  {
    if run[|steps|].threads[id].pc == AtStop {
      steps', run' := steps, run;
    } else {
      WorkerNearsStop(run[|steps|], id);
      steps', run' := Extend(steps, run, Works(id));
      steps', run' := DriveToStop(steps', run', id);
    }
  }

  /** A start whose `i`-th thread creation fails gives up: the manager does not run, the threads
      created before it stay, and so do their states. */
  lemma StartGivesUp(steps: seq<Step>, run: seq<Manager>, i: nat) returns (steps': seq<Step>, run': seq<Manager>)
    requires IsPath(steps, run) && Call(Start) !in steps && i < KINDS
    requires Typed(run[|steps|]) && run[|steps|].control == StartRunning
    ensures Continues(run[0], steps', run')
    ensures var m, m' := run[|steps|], run'[|steps'|];
            && !m'.running && !m'.paused && m'.control == Resting
            && m'.threads == m.threads + [Thread(0, AtLoop), Thread(1, AtLoop), Thread(2, AtLoop)][..i]
            && |m'.states| == |m'.handles| == KINDS
            && (forall k :: 0 <= k < KINDS ==> m'.states[k] == if k <= i then Running else m.states[k])
            && (forall k :: 0 <= k < KINDS ==> m'.handles[k] == if k < i then |m.threads| + k else m.handles[k])
  {
    var m := run[|steps|];
    steps', run' := Extend(steps, run, Controls(true));
    steps', run' := Extend(steps', run', Controls(true));
    for k := 0 to i
      invariant Continues(run[0], steps', run')
      invariant var m' := run'[|steps'|];
                && Typed(m') && m'.running && !m'.paused && m'.control == StartState(k)
                && m'.threads == m.threads + [Thread(0, AtLoop), Thread(1, AtLoop), Thread(2, AtLoop)][..k]
                && (forall j :: 0 <= j < KINDS ==> m'.states[j] == if j < k then Running else m.states[j])
                && (forall j :: 0 <= j < KINDS ==> m'.handles[j] == if j < k then |m.threads| + j else m.handles[j])
    {
      steps', run' := CreateKind(steps', run', k);
    }
    steps', run' := Extend(steps', run', Controls(true));
    steps', run' := Extend(steps', run', Controls(false));
  }

  // ---------------------------------------------------------------- two workers of one kind

  lemma OldWorkerHasTwin(m: Manager, id: nat)
    requires Typed(m) && m.control == StartRunning && Live(m, id)
    ensures !OneLive(FinishStart(m))
  {
    var m' := FinishStart(m);
    assert m.threads[id] in m.threads && m'.threads[id] == m.threads[id];
    var twin := |m.threads| + m.threads[id].kind;
    assert Live(m', id) && Live(m', twin) && m'.threads[twin].kind == m'.threads[id].kind;
  }

  /** A start in time: no worker is live when it takes effect. */
  ghost predicate StartedAlone(m: Manager) {
    && Typed(m) && HandlesName(m) && RoomToCreate(m)
    && m.control != StartCheck && (m.control == StartRunning ==> NoneLive(m, 0))
  }

  lemma StepKeepsAlone(m: Manager, step: Step)
    requires Enabled(m, step) && step != Call(Start) && StartedAlone(m)
    ensures StartedAlone(Apply(m, step))
  {
    StepKeepsHandles(m, step);
    if step.Works? {
      WorkerFrame(m, step.id);
    }
  }

  lemma {:induction false} PathKeepsAlone(m: Manager, steps: seq<Step>, run: seq<Manager>, i: nat)
    requires Continues(m, steps, run) && StartedAlone(m) && i < |run|
    ensures StartedAlone(run[i])
  {
    if i > 0 {
      PathKeepsAlone(m, steps, run, i - 1);
      assert Enabled(run[i - 1], steps[i - 1]) && run[i - 1 + 1] == Apply(run[i - 1], steps[i - 1]);
      StepKeepsAlone(run[i - 1], steps[i - 1]);
    }
  }

  /** A start that takes effect can lead to two live workers of one kind, before start is called
      again, exactly if a worker is live when it takes effect. */
  lemma DuplicatesIffLive(steps: seq<Step>, run: seq<Manager>)
    requires IsRun(steps, run) && run[|steps|].control == StartRunning
    ensures var m := run[|steps|];
            (exists id: nat :: Live(m, id)) <==> (exists more, tail :: Continues(m, more, tail) && !OneLive(tail[|more|]))
  {
    var m := run[|steps|];
    RunKeepsTyped(steps, run, |steps|);
    if id: nat :| Live(m, id) {
      var more, tail := StartFinishes([], [m]);
      OldWorkerHasTwin(m, id);
      assert Continues(m, more, tail) && !OneLive(tail[|more|]);
    } else if more, tail :| Continues(m, more, tail) && !OneLive(tail[|more|]) {
      PathKeepsAlone(m, more, tail, |more|);
    }
  }

  // ---------------------------------------------------------------- late STOPPED stores

  /** A live worker that has not stored STOPPED yet. */
  ghost predicate BeforeItsStore(m: Manager, id: nat) {
    Live(m, id) && m.threads[id].pc != AtReturn
  }

  /** A start takes effect although an earlier worker has not stored STOPPED yet. */
  ghost predicate StartsBeforeStore(m: Manager, step: Step) {
    step.Controls? && m.control == StartRunning && exists id: nat :: BeforeItsStore(m, id)
  }

  /** While the manager runs nobody is about to store STOPPED, and the states stored are RUNNING. */
  ghost predicate StateInv(m: Manager) {
    && Typed(m)
    && (m.running ==> forall id: nat :: id < |m.threads| ==> m.threads[id].pc != AtStop)
    && match m.control
       case StartRunning => !m.running
       case StartUnpause => m.running
       case StartState(i) => m.running && forall k :: 0 <= k < i ==> m.states[k] == Running
       case StartCreate(i) => m.running && forall k :: 0 <= k <= i ==> m.states[k] == Running
       case StopJoin(_) => !m.running
       case StopState(_) => !m.running
       case _ => m.running ==> forall k :: 0 <= k < KINDS ==> m.states[k] == Running
  }

  lemma WorkerKeepsStates(m: Manager, id: nat)
    requires Enabled(m, Works(id)) && StateInv(m)
    ensures StateInv(WorkerMoves(m, id))
  {
    WorkerFrame(m, id);
  }

  lemma ControlKeepsStates(m: Manager, creates: bool)
    requires Enabled(m, Controls(creates)) && StateInv(m) && !StartsBeforeStore(m, Controls(creates))
    ensures StateInv(ControlMoves(m, creates))
  {
    if m.control == StartRunning {
      forall id: nat | id < |m.threads|
        ensures m.threads[id].pc != AtStop
      {
        assert !BeforeItsStore(m, id);
      }
    }
  }

  lemma StepKeepsStates(m: Manager, step: Step)
    requires Enabled(m, step) && StateInv(m) && !StartsBeforeStore(m, step)
    ensures StateInv(Apply(m, step))
  {
    match step
    case Call(_) =>
    case Controls(creates) => ControlKeepsStates(m, creates);
    case Works(id) => WorkerKeepsStates(m, id);
  }

  ghost predicate AllRunning(m: Manager) {
    m.states == [Running, Running, Running]
  }

  /** In every run, failed creations included, in which no start takes effect while an earlier
      worker has not stored STOPPED yet: from the end of a start until stop clears `running`, all
      states are RUNNING. */
  lemma {:induction false} NoLateStore(steps: seq<Step>, run: seq<Manager>, i: nat)
    requires IsRun(steps, run) && i < |run|
    requires forall j :: 0 <= j < |steps| ==> !StartsBeforeStore(run[j], steps[j])
    ensures StateInv(run[i])
    ensures run[i].running && !Starting(run[i].control) ==> AllRunning(run[i])
  {
    if i > 0 {
      NoLateStore(steps, run, i - 1);
      assert Enabled(run[i - 1], steps[i - 1]) && run[i - 1 + 1] == Apply(run[i - 1], steps[i - 1]);
      StepKeepsStates(run[i - 1], steps[i - 1]);
    }
  }

  /** A start in time: every earlier worker has stored STOPPED when it takes effect. */
  ghost predicate StartedAfterStores(m: Manager) {
    && StateInv(m) && m.control != StartCheck
    && (m.control == StartRunning ==> forall id: nat :: !BeforeItsStore(m, id))
  }

  lemma StepKeepsAfterStores(m: Manager, step: Step)
    requires Enabled(m, step) && step != Call(Start) && StartedAfterStores(m)
    ensures StartedAfterStores(Apply(m, step))
  {
    StepKeepsStates(m, step);
    if step.Works? && m.control == StartRunning {
      WorkerFrame(m, step.id);
      assert !BeforeItsStore(m, step.id);
      forall id: nat
        ensures !BeforeItsStore(Apply(m, step), id)
      {
        assert !BeforeItsStore(m, id);
      }
    }
  }

  lemma {:induction false} PathKeepsAfterStores(m: Manager, steps: seq<Step>, run: seq<Manager>, i: nat)
    requires Continues(m, steps, run) && StartedAfterStores(m) && i < |run|
    ensures StartedAfterStores(run[i])
  {
    if i > 0 {
      PathKeepsAfterStores(m, steps, run, i - 1);
      assert Enabled(run[i - 1], steps[i - 1]) && run[i - 1 + 1] == Apply(run[i - 1], steps[i - 1]);
      StepKeepsAfterStores(run[i - 1], steps[i - 1]);
    }
  }

  /** The manager runs, but a state is not RUNNING. */
  ghost predicate LosesState(m: Manager) {
    m.running && !Starting(m.control) && !AllRunning(m)
  }

  lemma LateStore(m: Manager, id: nat) returns (more: seq<Step>, tail: seq<Manager>)
    requires Typed(m) && m.control == StartRunning && !m.running && BeforeItsStore(m, id)
    ensures Continues(m, more, tail) && tail[|more|].control == Resting && LosesState(tail[|more|])
  {
    more, tail := DriveToStop([], [m], id);
    var m1 := tail[|more|];
    assert m1.threads[id] in m1.threads;
    more, tail := StartFinishes(more, tail);
    assert tail[|more|].threads[id] == m1.threads[id];
    more, tail := Extend(more, tail, Works(id));        // stores STOPPED
    assert tail[|more|].states[m1.threads[id].kind] == Stopped;
  }

  /** Exactly when a late STOPPED store can overwrite RUNNING: after a start that takes effect, and
      before start is called again, the manager can come to run with a state that is not RUNNING
      if and only if a live worker has not stored STOPPED yet when the start takes effect. */
  lemma LateStoreIff(steps: seq<Step>, run: seq<Manager>)
    requires IsRun(steps, run) && run[|steps|].control == StartRunning
    ensures var m := run[|steps|];
            (exists id: nat :: BeforeItsStore(m, id))
            <==> (exists more, tail :: Continues(m, more, tail) && LosesState(tail[|more|]))
  {
    var m := run[|steps|];
    RunKeepsTyped(steps, run, |steps|);
    if id: nat :| BeforeItsStore(m, id) {
      var more, tail := LateStore(m, id);
      assert Continues(m, more, tail) && LosesState(tail[|more|]);
    } else if more, tail :| Continues(m, more, tail) && LosesState(tail[|more|]) {
      PathKeepsAfterStores(m, more, tail, |more|);
    }
  }

  // ---------------------------------------------------------------- what stop leaves behind

  /** A live worker that stop is not going to join: stop joins nobody while the manager does not
      run, and else the last worker of each kind. */
  ghost predicate NotJoined(m: Manager, id: nat)
    requires Typed(m)
  {
    Live(m, id) && (m.running ==> m.handles[m.threads[id].kind] != id)
  }

  /** Live workers are still to be joined, from the kind that stop has come to. */
  ghost predicate ToJoin(m: Manager, from: nat)
    requires Typed(m)
  {
    forall id: nat :: Live(m, id) ==> from <= m.threads[id].kind && m.handles[m.threads[id].kind] == id
  }

  /** On its way, stop joins every worker there is. */
  ghost predicate StopInv(m: Manager) {
    && Typed(m)
    && match m.control
       case StopCheck => if m.running then ToJoin(m, 0) else NoneLive(m, 0)
       case StopRunning => ToJoin(m, 0)
       case StopJoin(i) => !m.running && ToJoin(m, i)
       case StopState(i) => !m.running && ToJoin(m, i + 1)
       case StopReturn => !m.running && NoneLive(m, 0)
       case Resting => !m.running && NoneLive(m, 0)
       case PauseStore => !m.running && NoneLive(m, 0)
       case ResumeStore => !m.running && NoneLive(m, 0)
       case _ => false
  }

  lemma SameLife(m: Manager, m': Manager)
    requires Typed(m) && |m'.threads| == |m.threads| && m'.handles == m.handles
    requires forall j :: 0 <= j < |m.threads| ==> m'.threads[j].kind == m.threads[j].kind
    requires forall j: nat :: Live(m', j) ==> Live(m, j)
    requires Typed(m')
    ensures NoneLive(m, 0) ==> NoneLive(m', 0)
    ensures forall from: nat :: ToJoin(m, from) ==> ToJoin(m', from)
  {
  }

  lemma JoinedAll(m: Manager, from: nat)
    requires Typed(m) && ToJoin(m, from) && from >= KINDS
    ensures NoneLive(m, 0)
  {
  }

  lemma WorkerKeepsStop(m: Manager, id: nat)
    requires Enabled(m, Works(id)) && StopInv(m)
    ensures StopInv(WorkerMoves(m, id))
  {
    WorkerFrame(m, id);
    SameLife(m, WorkerMoves(m, id));
  }

  /** No control step that stop can come to creates or removes a thread. */
  lemma StopFrame(m: Manager, creates: bool)
    requires Enabled(m, Controls(creates)) && StopInv(m)
    ensures var m' := ControlMoves(m, creates);
            && Typed(m')
            && (NoneLive(m, 0) ==> NoneLive(m', 0))
            && forall from: nat :: ToJoin(m, from) ==> ToJoin(m', from)
  {
    var m' := ControlMoves(m, creates);
    assert m'.handles == m.handles && |m'.threads| == |m.threads|;
    assert forall j :: 0 <= j < |m.threads| ==> m'.threads[j].kind == m.threads[j].kind && m'.threads[j].pc == m.threads[j].pc;
    SameLife(m, m');
  }

  /** A worker that stop joins has exited. */
  lemma JoinedOne(m: Manager, i: nat)
    requires Typed(m) && i < KINDS && ToJoin(m, i)
    requires m.handles[i] < |m.threads| && m.threads[m.handles[i]].pc == Exited
    ensures ToJoin(m, i + 1)
  {
  }

  lemma ControlKeepsStop(m: Manager, creates: bool)
    requires Enabled(m, Controls(creates)) && StopInv(m)
    ensures StopInv(ControlMoves(m, creates))
  {
    StopFrame(m, creates);
    if m.control.StopJoin? {
      JoinedOne(m, m.control.i);
    } else if m.control.StopState? && m.control.i + 1 == KINDS {
      JoinedAll(m, KINDS);
    }
  }

  lemma CallKeepsStop(m: Manager, request: Request)
    requires Enabled(m, Call(request)) && request != Start && StopInv(m)
    ensures StopInv(Apply(m, Call(request)))
  {
    SameLife(m, Apply(m, Call(request)));
  }

  lemma StepKeepsStop(m: Manager, step: Step)
    requires Enabled(m, step) && step != Call(Start) && StopInv(m)
    ensures StopInv(Apply(m, step))
  {
    match step
    case Works(id) => WorkerKeepsStop(m, id);
    case Controls(creates) => ControlKeepsStop(m, creates);
    case Call(request) => CallKeepsStop(m, request);
  }

  lemma {:induction false} PathKeepsStop(m: Manager, steps: seq<Step>, run: seq<Manager>, i: nat)
    requires Continues(m, steps, run) && StopInv(m) && i < |run|
    ensures StopInv(run[i])
  {
    if i > 0 {
      PathKeepsStop(m, steps, run, i - 1);
      assert Enabled(run[i - 1], steps[i - 1]) && run[i - 1 + 1] == Apply(run[i - 1], steps[i - 1]);
      StepKeepsStop(run[i - 1], steps[i - 1]);
    }
  }

  /** How many handles the start in effect has stored. */
  function Stored(c: Control): nat {
    match c
    case StartUnpause => 0
    case StartState(i) => i
    case StartCreate(i) => i
    case _ => KINDS
  }

  ghost predicate HandleValid(m: Manager, k: nat)
    requires Typed(m) && k < KINDS
  {
    m.handles[k] < |m.threads| && m.threads[m.handles[k]].kind == k
  }

  /** Stop is joining threads. */
  predicate Joining(c: Control) {
    c.StopJoin? || c.StopState?
  }

  /** They name threads of their kinds. */
  ghost predicate HandlesValid(m: Manager) {
    && Typed(m)
    && (m.running || Joining(m.control) ==> forall k :: 0 <= k < KINDS && k < Stored(m.control) ==> HandleValid(m, k))
    && (m.control == StartRunning || Joining(m.control) ==> !m.running)
    && (m.control == StopRunning ==> m.running)
  }

  lemma SameHandle(m: Manager, m': Manager, k: nat)
    requires Typed(m) && Typed(m') && k < KINDS && HandleValid(m, k) && m'.handles[k] == m.handles[k]
    requires |m.threads| <= |m'.threads|
    requires forall j :: 0 <= j < |m.threads| ==> m'.threads[j].kind == m.threads[j].kind
    ensures HandleValid(m', k)
  {
  }

  lemma SameHandles(m: Manager, m': Manager)
    requires HandlesValid(m) && Typed(m') && m'.handles == m.handles && m'.running == m.running
    requires m'.control == m.control || (m.control == Resting && m'.control != StartRunning && m'.control != StopRunning
                                         && !Starting(m'.control) && !Joining(m'.control))
    requires |m.threads| == |m'.threads|
    requires forall j :: 0 <= j < |m.threads| ==> m'.threads[j].kind == m.threads[j].kind
    ensures HandlesValid(m')
  {
    forall k | 0 <= k < KINDS && k < Stored(m'.control) && (m'.running || Joining(m'.control))
      ensures HandleValid(m', k)
    {
      SameHandle(m, m', k);
    }
  }

  lemma WorkerKeepsHandlesValid(m: Manager, id: nat)
    requires Enabled(m, Works(id)) && HandlesValid(m)
    ensures HandlesValid(WorkerMoves(m, id))
  {
    WorkerFrame(m, id);
    SameHandles(m, WorkerMoves(m, id));
  }

  lemma ControlKeepsHandlesValid(m: Manager, creates: bool)
    requires Enabled(m, Controls(creates)) && HandlesValid(m)
    ensures HandlesValid(ControlMoves(m, creates))
  {
    var m' := ControlMoves(m, creates);
    StepKeepsTyped(m, Controls(creates));
    forall k | 0 <= k < KINDS && k < Stored(m'.control) && (m'.running || Joining(m'.control))
      ensures HandleValid(m', k)
    {
      if k < Stored(m.control) && (m.running || Joining(m.control)) {
        SameHandle(m, m', k);
      }
    }
  }

  lemma StepKeepsHandlesValid(m: Manager, step: Step)
    requires Enabled(m, step) && HandlesValid(m)
    ensures HandlesValid(Apply(m, step))
  {
    match step
    case Works(id) => WorkerKeepsHandlesValid(m, id);
    case Controls(creates) => ControlKeepsHandlesValid(m, creates);
    case Call(_) => SameHandles(m, Apply(m, step));
  }

  lemma {:induction false} RunKeepsHandlesValid(steps: seq<Step>, run: seq<Manager>, i: nat)
    requires IsRun(steps, run) && i < |run|
    ensures HandlesValid(run[i])
  {
    if i > 0 {
      RunKeepsHandlesValid(steps, run, i - 1);
      assert Enabled(run[i - 1], steps[i - 1]) && run[i - 1 + 1] == Apply(run[i - 1], steps[i - 1]);
      StepKeepsHandlesValid(run[i - 1], steps[i - 1]);
    }
  }

  /** While `running` is false a worker can go on until it has exited. */
  lemma DriveToExit(steps: seq<Step>, run: seq<Manager>, id: nat) returns (steps': seq<Step>, run': seq<Manager>)
    requires IsPath(steps, run) && Call(Start) !in steps && Typed(run[|steps|])
    requires id < |run[|steps|].threads| && !run[|steps|].running
    ensures Continues(run[0], steps', run') && Typed(run'[|steps'|])
    ensures OnlyMoved(run[|steps|], run'[|steps'|], id) && run'[|steps'|].threads[id].pc == Exited
  {
    var m := run[|steps|];
    steps', run' := steps, run;
    if BeforeItsStore(m, id) {
      steps', run' := DriveToStop(steps', run', id);
      WorkerFrame(run'[|steps'|], id);
      steps', run' := Extend(steps', run', Works(id));
    }
    if run'[|steps'|].threads[id].pc == AtReturn {
      WorkerFrame(run'[|steps'|], id);
      steps', run' := Extend(steps', run', Works(id));
    }
  }

  /** Stop joins the workers from kind `i` on, one after the other; worker `id` does not move. */
  lemma {:induction false} JoinsLeave(steps: seq<Step>, run: seq<Manager>, i: nat, id: nat) returns (steps': seq<Step>, run': seq<Manager>)
    requires IsPath(steps, run) && Call(Start) !in steps && i < KINDS
    requires var m := run[|steps|];
             && Typed(m) && !m.running && m.control == StopJoin(i) && Live(m, id)
             && forall k :: i <= k < KINDS ==> HandleValid(m, k) && m.handles[k] != id
    ensures Continues(run[0], steps', run') && run'[|steps'|].control == StopReturn && Live(run'[|steps'|], id)
    decreases KINDS - i
  {
    steps', run' := DriveToExit(steps, run, run[|steps|].handles[i]);
    var m := run'[|steps'|];
    assert forall k :: i <= k < KINDS ==> HandleValid(run[|steps|], k);
    steps', run' := Extend(steps', run', Controls(true));   // joins
    steps', run' := Extend(steps', run', Controls(true));   // stores STOPPED
    if i + 1 < KINDS {
      steps', run' := JoinsLeave(steps', run', i + 1, id);
    }
  }

  lemma StopLeaves(m: Manager, id: nat) returns (more: seq<Step>, tail: seq<Manager>)
    requires HandlesValid(m) && m.control == StopCheck && NotJoined(m, id)
    ensures Continues(m, more, tail) && tail[|more|].control == StopReturn && Live(tail[|more|], id)
  {
    more, tail := Extend([], [m], Controls(true));          // reads running
    if m.running {
      more, tail := Extend(more, tail, Controls(true));     // clears running
      forall k | 0 <= k < KINDS
        ensures HandleValid(m, k) && m.handles[k] != id
      {
      }
      more, tail := JoinsLeave(more, tail, 0, id);
    }
  }

  /** Exactly when stop can return with a live worker: if and only if, when it is called, there is
      a live worker that it does not join. */
  lemma StopLeavesWorkerIff(steps: seq<Step>, run: seq<Manager>)
    requires IsRun(steps, run) && run[|steps|].control == StopCheck
    ensures var m := run[|steps|];
            && Typed(m)
            && ((exists id: nat :: NotJoined(m, id))
                <==> (exists more, tail :: StopReturnsWithWorker(m, more, tail)))
  {
    var m := run[|steps|];
    RunKeepsHandlesValid(steps, run, |steps|);
    if id: nat :| NotJoined(m, id) {
      var more, tail := StopLeaves(m, id);
      assert StopReturnsWithWorker(m, more, tail);
    } else if more, tail :| StopReturnsWithWorker(m, more, tail) {
      forall id: nat | Live(m, id)
        ensures m.running && m.handles[m.threads[id].kind] == id
      {
        assert !NotJoined(m, id);
      }
      PathKeepsStop(m, more, tail, |more|);
    }
  }

  ghost predicate StopReturnsWithWorker(m: Manager, more: seq<Step>, tail: seq<Manager>) {
    Continues(m, more, tail) && tail[|more|].control == StopReturn && !NoneLive(tail[|more|], 0)
  }

  // ---------------------------------------------------------------- failed creations

  /** A start, called while the manager rests and does not run, runs to its end. */
  lemma WholeStart(steps: seq<Step>, run: seq<Manager>) returns (steps': seq<Step>, run': seq<Manager>)
    requires IsRun(steps, run) && Typed(run[|steps|])
    requires run[|steps|].control == Resting && !run[|steps|].running
    ensures IsRun(steps', run')
    ensures var m := run[|steps|].(control := StartRunning);
            Typed(m) && run'[|steps'|] == FinishStart(m)
  {
    steps', run' := Extend(steps, run, Call(Start));
    steps', run' := Extend(steps', run', Controls(true));   // reads running
    var more, tail := StartFinishes([], [run'[|steps'|]]);
    RunGoesOn(steps', run', more, tail);
    steps', run' := steps' + more, run' + tail[1..];
  }

  const FAILED_START := Manager(false, false, [Running, Running, Idle], [0, 0, 0], [Thread(0, AtLoop)], Resting)

  lemma StartTakesEffect() returns (steps: seq<Step>, run: seq<Manager>)
    ensures IsRun(steps, run)
    ensures run[|steps|] == NEW_MANAGER.(running := true, control := StartState(0))
  {
    steps, run := [], [NEW_MANAGER];
    steps, run := Extend(steps, run, Call(Start));
    steps, run := Extend(steps, run, Controls(true));   // reads running
    steps, run := Extend(steps, run, Controls(true));   // stores running
    steps, run := Extend(steps, run, Controls(true));   // stores paused
  }

  lemma HalfStart() returns (steps: seq<Step>, run: seq<Manager>)
    ensures IsRun(steps, run)
    ensures run[|steps|] == Manager(true, false, [Running, Idle, Idle], [0, 0, 0], [Thread(0, AtLoop)], StartState(1))
  {
    steps, run := StartTakesEffect();
    steps, run := Extend(steps, run, Controls(true));   // state of kind 0
    steps, run := Extend(steps, run, Controls(true));   // creates kind 0
  }

  /** When the second thread cannot be created, start gives up but leaves the capture worker live. */
  lemma FailedStart() returns (steps: seq<Step>, run: seq<Manager>)
    ensures IsRun(steps, run) && run[|steps|] == FAILED_START
  {
    steps, run := HalfStart();
    steps, run := Extend(steps, run, Controls(true));   // state of kind 1
    steps, run := Extend(steps, run, Controls(false));  // cannot create kind 1
  }

  /** The next start takes effect at once and creates a second capture worker. */
  lemma FailedStartLeavesWorker() returns (steps: seq<Step>, run: seq<Manager>)
    ensures IsRun(steps, run) && !OneLive(run[|steps|])
    ensures run[|steps|].control == Resting && run[|steps|].running
  {
    steps, run := FailedStart();
    steps, run := WholeStart(steps, run);
    assert Live(FAILED_START.(control := StartRunning), 0);
    OldWorkerHasTwin(FAILED_START.(control := StartRunning), 0);
  }

  /** And if the worker left over saw `running` false before that start, it stores STOPPED
      when the start is over: the manager runs, and its capture state is STOPPED. */
  lemma LateStoppedStore() returns (steps: seq<Step>, run: seq<Manager>)
    ensures IsRun(steps, run)
    ensures var m := run[|steps|];
            m.control == Resting && m.running && m.states == [Stopped, Running, Running]
  {
    steps, run := FailedStart();
    steps, run := Extend(steps, run, Works(0));         // reads running
    assert run[|steps|] == FAILED_START.(threads := [Thread(0, AtStop)]);
    steps, run := WholeStart(steps, run);
    assert run[|steps|].threads[0] == Thread(0, AtStop);
    steps, run := Extend(steps, run, Works(0));         // stores STOPPED
  }

  /** Called instead of the next start, stop returns at once, with the worker live and its state
      RUNNING. */
  lemma StopAfterFailedStart() returns (steps: seq<Step>, run: seq<Manager>)
    ensures IsRun(steps, run)
    ensures var m := run[|steps|];
            m.control == StopReturn && !NoneLive(m, 0) && m.states == [Running, Running, Idle]
  {
    steps, run := FailedStart();
    steps, run := Extend(steps, run, Call(Stop));
    steps, run := Extend(steps, run, Controls(true));   // reads running
    assert Live(run[|steps|], 0);
  }
}
