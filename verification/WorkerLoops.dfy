/** What the loops of the worker threads do over whole runs: they work exactly while they are told
    to, hold at a pause, go on after a resume and end after a stop. */
module WorkerLoops {
  import opened Lifecycle

  // ---------------------------------------------------------------- counting over a run

  /** Worker `id` begins a call of its worker function in step `m`. */
  ghost predicate Begins(steps: seq<Step>, run: seq<Manager>, id: nat, m: nat)
    requires |run| == |steps| + 1 && m < |steps|
  {
    && steps[m] == Works(id) && id < |run[m].threads| && id < |run[m + 1].threads|
    && run[m].threads[id].pc != InCall && run[m + 1].threads[id].pc == InCall
  }

  /** How many calls worker `id` begins from instant j to instant i. */
  ghost function CallsBegun(steps: seq<Step>, run: seq<Manager>, id: nat, j: nat, i: nat): nat
    requires |run| == |steps| + 1 && j <= i <= |steps|
  {
    if j == i then 0 else CallsBegun(steps, run, id, j, i - 1) + (if Begins(steps, run, id, i - 1) then 1 else 0)
  }

  /** How many steps of its own worker `id` makes from instant j to instant i. */
  function OwnSteps(steps: seq<Step>, id: nat, j: nat, i: nat): nat
    requires j <= i <= |steps|
  {
    if j == i then 0 else OwnSteps(steps, id, j, i - 1) + (if steps[i - 1] == Works(id) then 1 else 0)
  }

  /** One step, seen from worker `id`. */
  ghost predicate Leads(m: Manager, step: Step, m': Manager) {
    Enabled(m, step) && m' == Apply(m, step)
  }

  lemma StepAt(steps: seq<Step>, run: seq<Manager>, i: nat)
    requires IsRun(steps, run) && i < |steps|
    ensures Leads(run[i], steps[i], run[i + 1])
  {
  }

  lemma OthersStep(m: Manager, step: Step, m': Manager, id: nat)
    requires Leads(m, step, m') && id < |m.threads| && step != Works(id)
    ensures id < |m'.threads| && m'.threads[id] == m.threads[id]
  {
  }

  // ---------------------------------------------------------------- a call is checked

  /** The last own step of a worker before instant i: it brought the worker where it is. */
  lemma LastOwnStep(steps: seq<Step>, run: seq<Manager>, id: nat, i: nat) returns (a: nat)
    requires IsRun(steps, run) && i <= |steps| && id < |run[i].threads| && run[i].threads[id].pc != AtLoop
    ensures a < i && steps[a] == Works(id) && id < |run[a].threads| && Leads(run[a], Works(id), run[a + 1])
    ensures forall m :: a < m <= i ==> id < |run[m].threads| && run[m].threads[id] == run[i].threads[id]
  {
    forall m | 0 <= m < i && steps[m] != Works(id)
      ensures NotMoved(run[m], run[m + 1], id)
    {
      StepAt(steps, run, m);
      if id < |run[m + 1].threads| {
        SameOrNew(run[m], steps[m], run[m + 1], id);
      }
    }
    a := MovedBefore(steps, run, id, i);
    StepAt(steps, run, a);
  }

  /** From `m` to `m'` worker `id` did not move, except that it may be new. */
  ghost predicate NotMoved(m: Manager, m': Manager, id: nat) {
    id < |m'.threads| ==>
      if id < |m.threads| then m'.threads[id] == m.threads[id] else m'.threads[id].pc == AtLoop
  }

  lemma {:induction false} MovedBefore(steps: seq<Step>, run: seq<Manager>, id: nat, i: nat) returns (a: nat)
    requires |run| == |steps| + 1 && run[0].threads == []
    requires i <= |steps| && id < |run[i].threads| && run[i].threads[id].pc != AtLoop
    requires forall m :: 0 <= m < i && steps[m] != Works(id) ==> NotMoved(run[m], run[m + 1], id)
    ensures a < i && steps[a] == Works(id)
    ensures forall m :: a < m <= i ==> id < |run[m].threads| && run[m].threads[id] == run[i].threads[id]
  {
    if steps[i - 1] == Works(id) {
      a := i - 1;
    } else {
      assert NotMoved(run[i - 1], run[i - 1 + 1], id);
      a := MovedBefore(steps, run, id, i - 1);
    }
  }

  lemma SameOrNew(m: Manager, step: Step, m': Manager, id: nat)
    requires Leads(m, step, m') && step != Works(id) && id < |m'.threads|
    ensures if id < |m.threads| then m'.threads[id] == m.threads[id] else m'.threads[id].pc == AtLoop
  {
  }

  /** From instant a, exclusive, to instant b the worker stands at `pc`. */
  ghost predicate Stands(run: seq<Manager>, id: nat, a: nat, b: nat, pc: Pc)
    requires b < |run|
  {
    forall m :: a < m <= b ==> id < |run[m].threads| && run[m].threads[id].pc == pc
  }

  /** Nothing but an order calls a worker function: when a worker is about to begin a call, then,
      since it last stood at the head of its loop, it has read `running` true, then `paused` false,
      and then its state RUNNING. */
  lemma CallIsChecked(steps: seq<Step>, run: seq<Manager>, id: nat, i: nat) returns (a: nat, b: nat, c: nat)
    requires IsRun(steps, run) && i < |steps| && Begins(steps, run, id, i)
    ensures a < b < c < i
    ensures steps[a] == steps[b] == steps[c] == Works(id)
    ensures id < |run[a].threads| && run[a].threads[id].pc == AtLoop && run[a].running
    ensures Stands(run, id, a, b, AtPause) && !run[b].paused
    ensures Stands(run, id, b, c, AtState) && Typed(run[c])
    ensures run[c].threads[id].kind < KINDS && run[c].states[run[c].threads[id].kind] == Running
    ensures Stands(run, id, c, i, AtCall)
  {
    StepAt(steps, run, i);
    CallFollows(run[i], run[i + 1], id);
    c := LastOwnStep(steps, run, id, i);
    CallFollows(run[c], run[c + 1], id);
    b := LastOwnStep(steps, run, id, c);
    CallFollows(run[b], run[b + 1], id);
    a := LastOwnStep(steps, run, id, b);
    CallFollows(run[a], run[a + 1], id);
  }

  /** Where a step on the way to a call starts, and what it has read. */
  lemma CallFollows(m: Manager, m': Manager, id: nat)
    requires id < |m.threads| && Leads(m, Works(id), m')
    ensures id < |m'.threads|
    ensures m'.threads[id].pc == InCall ==> m.threads[id].pc == AtCall
    ensures m'.threads[id].pc == AtCall ==>
              && m.threads[id].pc == AtState && Typed(m)
              && m.threads[id].kind < KINDS && m.states[m.threads[id].kind] == Running
    ensures m'.threads[id].pc == AtState ==> m.threads[id].pc == AtPause && !m.paused
    ensures m'.threads[id].pc == AtPause ==> m.threads[id].pc == AtLoop && m.running
  {
    assert m.threads[id] in m.threads;
  }

  // ---------------------------------------------------------------- a worker that may work, works

  /** Worker `id` is told to work: the manager runs and is not paused, its state is RUNNING, and it
      has not seen `running` false. */
  ghost predicate ToldToWork(m: Manager, id: nat) {
    && m.running && !m.paused && id < |m.threads| && m.threads[id].kind < |m.states|
    && m.states[m.threads[id].kind] == Running
    && m.threads[id].pc != AtStop && m.threads[id].pc != AtReturn && m.threads[id].pc != Exited
  }

  /** Own steps until the next call begins. */
  function BeginRank(pc: Pc): nat {
    match pc
    case InCall => 5
    case Sleeping => 5
    case AtLoop => 4
    case AtPause => 3
    case AtState => 2
    case AtCall => 1
    case _ => 0
  }

  lemma OwnStepWorks(m: Manager, m': Manager, id: nat)
    requires ToldToWork(m, id) && Leads(m, Works(id), m')
    ensures id < |m'.threads|
    ensures if m'.threads[id].pc == InCall then m.threads[id].pc == AtCall
            else BeginRank(m'.threads[id].pc) == BeginRank(m.threads[id].pc) - 1
  {
  }

  /** Step m brings worker `id` one step nearer to its next call, if it is its own, and begins the
      call if it is the last. */
  ghost predicate Nears(steps: seq<Step>, run: seq<Manager>, id: nat, m: nat)
    requires |run| == |steps| + 1 && m < |steps|
  {
    && id < |run[m].threads| && id < |run[m + 1].threads|
    && BeginRank(run[m + 1].threads[id].pc) + (if steps[m] == Works(id) then 1 else 0)
    == BeginRank(run[m].threads[id].pc) + (if Begins(steps, run, id, m) then 5 else 0)
  }

  lemma ToldInstant(steps: seq<Step>, run: seq<Manager>, id: nat, m: nat)
    requires IsRun(steps, run) && m < |steps| && ToldToWork(run[m], id)
    ensures Nears(steps, run, id, m)
  {
    StepAt(steps, run, m);
    if steps[m] == Works(id) {
      OwnStepWorks(run[m], run[m + 1], id);
    } else {
      OthersStep(run[m], steps[m], run[m + 1], id);
    }
  }

  lemma {:induction false} NearsAll(steps: seq<Step>, run: seq<Manager>, id: nat, j: nat, i: nat)
    requires |run| == |steps| + 1 && j <= i <= |steps| && id < |run[j].threads|
    requires forall m :: j <= m < i ==> Nears(steps, run, id, m)
    ensures id < |run[i].threads|
    ensures OwnSteps(steps, id, j, i) + BeginRank(run[i].threads[id].pc)
         == BeginRank(run[j].threads[id].pc) + 5 * CallsBegun(steps, run, id, j, i)
  {
    if j < i {
      NearsAll(steps, run, id, j, i - 1);
      assert Nears(steps, run, id, i - 1);
    }
  }

  /** Progress: as long as a worker is told to work it can always go on, and over any run every
      five steps of its own are one call: the count is exact. */
  lemma ToldWorkerWorks(steps: seq<Step>, run: seq<Manager>, id: nat, j: nat, i: nat)
    requires IsRun(steps, run) && j <= i <= |steps|
    requires forall m :: j <= m <= i ==> ToldToWork(run[m], id)
    ensures ToldToWork(run[j], id) && ToldToWork(run[i], id)
    ensures OwnSteps(steps, id, j, i) + BeginRank(run[i].threads[id].pc)
         == BeginRank(run[j].threads[id].pc) + 5 * CallsBegun(steps, run, id, j, i)
    ensures OwnSteps(steps, id, j, i) >= 5 ==> CallsBegun(steps, run, id, j, i) >= 1
    ensures Enabled(run[i], Works(id))
  {
    RunKeepsTyped(steps, run, i);
    assert ToldToWork(run[j], id) && ToldToWork(run[i], id);
    forall m | j <= m < i
      ensures Nears(steps, run, id, m)
    {
      ToldInstant(steps, run, id, m);
    }
    NearsAll(steps, run, id, j, i);
  }

  // ---------------------------------------------------------------- pause

  /** Step m takes back a pause: a resume, or a start that takes effect. */
  ghost predicate Unpauses(steps: seq<Step>, run: seq<Manager>, m: nat)
    requires |run| == |steps| + 1 && m < |steps|
  {
    steps[m].Controls? && (run[m].control == ResumeStore || run[m].control == StartUnpause)
  }

  /** Calls that a worker may still begin once the manager is paused. */
  function StillToBegin(m: Manager, id: nat): nat {
    if id < |m.threads| && (m.threads[id].pc == AtState || m.threads[id].pc == AtCall) then 1 else 0
  }

  lemma PausedStep(steps: seq<Step>, run: seq<Manager>, id: nat, m: nat)
    requires |run| == |steps| + 1 && m < |steps| && Leads(run[m], steps[m], run[m + 1])
    requires run[m].paused && !Unpauses(steps, run, m)
    ensures run[m + 1].paused
    ensures StillToBegin(run[m + 1], id) + (if Begins(steps, run, id, m) then 1 else 0) <= StillToBegin(run[m], id)
  {
    if steps[m] == Works(id) {
      var t, t' := run[m].threads[id], run[m + 1].threads[id];
      assert t'.pc == InCall ==> t.pc == AtCall;
      assert t'.pc == AtState ==> false;
    } else if id < |run[m + 1].threads| {
      SameOrNew(run[m], steps[m], run[m + 1], id);
    }
  }

  /** Pause: from the step in which a pause takes effect until the next resume or start does,
      every worker begins at most one call. */
  lemma PauseTakesHold(steps: seq<Step>, run: seq<Manager>, id: nat, j: nat, i: nat)
    requires IsRun(steps, run) && j < i <= |steps|
    requires steps[j].Controls? && run[j].control == PauseStore
    requires forall m :: j < m < i ==> !Unpauses(steps, run, m)
    ensures CallsBegun(steps, run, id, j, i) <= 1
    ensures run[i].paused
  {
    PauseStored(steps, run, id, j);
    forall m | j < m < i
      ensures Quiet(steps, run, id, m)
    {
      if run[m].paused {
        PausedInstant(steps, run, id, m);
      }
    }
    HeldFrom(steps, run, id, j, i);
  }

  lemma PauseStored(steps: seq<Step>, run: seq<Manager>, id: nat, j: nat)
    requires IsRun(steps, run) && j < |steps|
    requires steps[j].Controls? && run[j].control == PauseStore
    ensures run[j + 1].paused && CallsBegun(steps, run, id, j, j + 1) == 0
  {
    StepAt(steps, run, j);
    assert CallsBegun(steps, run, id, j, j) == 0;
  }

  lemma PausedInstant(steps: seq<Step>, run: seq<Manager>, id: nat, m: nat)
    requires IsRun(steps, run) && m < |steps|
    requires run[m].paused && !Unpauses(steps, run, m)
    ensures run[m + 1].paused
    ensures StillToBegin(run[m + 1], id) + (if Begins(steps, run, id, m) then 1 else 0) <= StillToBegin(run[m], id)
  {
    StepAt(steps, run, m);
    PausedStep(steps, run, id, m);
  }

  /** While the manager is paused, step m adds no call to those still to begin. */
  ghost predicate Quiet(steps: seq<Step>, run: seq<Manager>, id: nat, m: nat)
    requires |run| == |steps| + 1 && m < |steps|
  {
    run[m].paused ==>
      && run[m + 1].paused
      && StillToBegin(run[m + 1], id) + (if Begins(steps, run, id, m) then 1 else 0) <= StillToBegin(run[m], id)
  }

  lemma {:induction false} HeldFrom(steps: seq<Step>, run: seq<Manager>, id: nat, j: nat, i: nat)
    requires |run| == |steps| + 1 && j < i <= |steps|
    requires run[j + 1].paused && CallsBegun(steps, run, id, j, j + 1) == 0
    requires forall m :: j < m < i ==> Quiet(steps, run, id, m)
    ensures run[i].paused && CallsBegun(steps, run, id, j, i) + StillToBegin(run[i], id) <= 1
  {
    if j + 1 < i {
      HeldFrom(steps, run, id, j, i - 1);
      assert Quiet(steps, run, id, i - 1);
    }
  }

  // ---------------------------------------------------------------- resume

  /** Step m is one in which a pause or a stop takes effect. */
  ghost predicate Halts(steps: seq<Step>, run: seq<Manager>, m: nat)
    requires |run| == |steps| + 1 && m < |steps|
  {
    steps[m].Controls? && (run[m].control == PauseStore || run[m].control == StopRunning)
  }

  /** The manager runs, is not paused, and no start is under way. */
  ghost predicate Going(m: Manager) {
    m.running && !m.paused && m.control != StartRunning && !Starting(m.control)
  }

  lemma GoingStep(m: Manager, step: Step, m': Manager)
    requires Leads(m, step, m') && Going(m)
    requires step.Controls? ==> m.control != PauseStore && m.control != StopRunning
    ensures Going(m')
  {
  }

  /** A worker that has not seen `running` false. */
  ghost predicate OnDuty(m: Manager, id: nat) {
    && id < |m.threads|
    && m.threads[id].pc != AtStop && m.threads[id].pc != AtReturn && m.threads[id].pc != Exited
  }

  /** From `m` to `m'` the manager stays going, and its workers stay on duty. */
  ghost predicate StaysGoing(m: Manager, m': Manager) {
    Going(m) ==> Going(m') && forall id: nat :: OnDuty(m, id) ==> OnDuty(m', id) && m'.threads[id].kind == m.threads[id].kind
  }

  lemma GoingInstant(steps: seq<Step>, run: seq<Manager>, m: nat)
    requires IsRun(steps, run) && m < |steps| && !Halts(steps, run, m)
    ensures StaysGoing(run[m], run[m + 1])
  {
    StepAt(steps, run, m);
    if Going(run[m]) {
      GoingStep(run[m], steps[m], run[m + 1]);
      forall id: nat | OnDuty(run[m], id)
        ensures OnDuty(run[m + 1], id) && run[m + 1].threads[id].kind == run[m].threads[id].kind
      {
        StaysOnDuty(run[m], steps[m], run[m + 1], id);
      }
    }
  }

  lemma StaysOnDuty(m: Manager, step: Step, m': Manager, id: nat)
    requires Leads(m, step, m') && m.running && OnDuty(m, id)
    ensures OnDuty(m', id) && m'.threads[id].kind == m.threads[id].kind
  {
    if step != Works(id) {
      OthersStep(m, step, m', id);
    }
  }

  lemma {:induction false} DutyGoesOn(run: seq<Manager>, id: nat, j: nat, i: nat)
    requires j <= i < |run| && Going(run[j]) && OnDuty(run[j], id)
    requires forall m :: j <= m < i ==> StaysGoing(run[m], run[m + 1])
    ensures Going(run[i]) && OnDuty(run[i], id) && run[i].threads[id].kind == run[j].threads[id].kind
  {
    if j < i {
      DutyGoesOn(run, id, j, i - 1);
      assert StaysGoing(run[i - 1], run[i - 1 + 1]);
    }
  }

  /** What goes on after a resume in a manager that runs. */
  lemma AfterResume(steps: seq<Step>, run: seq<Manager>, id: nat, j: nat, i: nat)
    requires IsRun(steps, run) && j < i <= |steps|
    requires steps[j].Controls? && run[j].control == ResumeStore && run[j].running && OnDuty(run[j], id)
    requires forall m :: j < m < i ==> !Halts(steps, run, m)
    ensures id < |run[j + 1].threads| && run[j + 1].threads[id] == run[j].threads[id]
    ensures forall m :: j < m <= i ==> Going(run[m]) && OnDuty(run[m], id) && run[m].threads[id].kind == run[j].threads[id].kind
  {
    StepAt(steps, run, j);
    OthersStep(run[j], steps[j], run[j + 1], id);
    forall m | j < m < i
      ensures StaysGoing(run[m], run[m + 1])
    {
      GoingInstant(steps, run, m);
    }
    forall m | j < m <= i
      ensures Going(run[m]) && OnDuty(run[m], id) && run[m].threads[id].kind == run[j].threads[id].kind
    {
      DutyGoesOn(run, id, j + 1, m);
    }
  }

  /** Resume: when a resume takes effect in a manager that runs, then until the next pause or stop
      takes effect every worker on duty whose state is RUNNING works, from wherever it stood, also
      asleep: it can always go on, and it begins a call in every five steps of its own. */
  lemma ResumeTakesHold(steps: seq<Step>, run: seq<Manager>, id: nat, j: nat, i: nat)
    requires IsRun(steps, run) && j < i <= |steps|
    requires steps[j].Controls? && run[j].control == ResumeStore && run[j].running && OnDuty(run[j], id)
    requires forall m :: j < m < i ==> !Halts(steps, run, m)
    requires forall m :: j < m <= i ==> StateRunning(run[m], run[j].threads[id].kind)
    ensures forall m :: j < m <= i ==> ToldToWork(run[m], id)
    ensures ToldToWork(run[i], id)
    ensures OwnSteps(steps, id, j + 1, i) >= 5 ==> CallsBegun(steps, run, id, j + 1, i) >= 1
    ensures OwnSteps(steps, id, j + 1, i) + BeginRank(run[i].threads[id].pc)
         == BeginRank(run[j].threads[id].pc) + 5 * CallsBegun(steps, run, id, j + 1, i)
    ensures Enabled(run[i], Works(id))
  {
    AfterResume(steps, run, id, j, i);
    forall m | j < m <= i
      ensures ToldToWork(run[m], id)
    {
      assert StateRunning(run[m], run[j].threads[id].kind);
    }
    ToldWorkerWorks(steps, run, id, j + 1, i);
  }

  ghost predicate StateRunning(m: Manager, kind: nat) {
    kind < |m.states| && m.states[kind] == Running
  }

  /** The states stay RUNNING by themselves in runs in which every start is in time. */
  lemma ResumeWithoutLateStores(steps: seq<Step>, run: seq<Manager>, id: nat, j: nat, i: nat)
    requires IsRun(steps, run) && j < i <= |steps|
    requires forall m :: 0 <= m < |steps| ==> !StartsBeforeStore(run[m], steps[m])
    requires steps[j].Controls? && run[j].control == ResumeStore && run[j].running && OnDuty(run[j], id)
    requires forall m :: j < m < i ==> !Halts(steps, run, m)
    ensures OwnSteps(steps, id, j + 1, i) >= 5 ==> CallsBegun(steps, run, id, j + 1, i) >= 1
  {
    AfterResume(steps, run, id, j, i);
    RunKeepsTyped(steps, run, j);
    assert run[j].threads[id] in run[j].threads;
    forall m | j < m <= i
      ensures StateRunning(run[m], run[j].threads[id].kind)
    {
      NoLateStore(steps, run, m);
    }
    ResumeTakesHold(steps, run, id, j, i);
  }

  // ---------------------------------------------------------------- the two flags

  /** Step m stores `paused` true. */
  ghost predicate Pauses(steps: seq<Step>, run: seq<Manager>, m: nat)
    requires |run| == |steps| + 1 && m < |steps|
  {
    steps[m].Controls? && run[m].control == PauseStore
  }

  ghost predicate PausedSince(steps: seq<Step>, run: seq<Manager>, j: nat, i: nat)
    requires |run| == |steps| + 1 && i <= |steps|
  {
    j < i && Pauses(steps, run, j) && forall m :: j < m < i ==> !Unpauses(steps, run, m)
  }

  ghost predicate PausedNext(steps: seq<Step>, run: seq<Manager>, m: nat)
    requires |run| == |steps| + 1 && m < |steps|
  {
    run[m + 1].paused <==> Pauses(steps, run, m) || (run[m].paused && !Unpauses(steps, run, m))
  }

  lemma {:induction false} PausedByInduction(steps: seq<Step>, run: seq<Manager>, i: nat)
    requires |run| == |steps| + 1 && i <= |steps| && !run[0].paused
    requires forall m :: 0 <= m < i ==> PausedNext(steps, run, m)
    ensures run[i].paused <==> exists j: nat :: PausedSince(steps, run, j, i)
  {
    if i > 0 {
      PausedByInduction(steps, run, i - 1);
      assert PausedNext(steps, run, i - 1);
      if Pauses(steps, run, i - 1) {
        assert PausedSince(steps, run, i - 1, i);
      } else if run[i].paused {
        var j: nat :| PausedSince(steps, run, j, i - 1);
        assert PausedSince(steps, run, j, i);
      } else if j: nat :| PausedSince(steps, run, j, i) {
        assert PausedSince(steps, run, j, i - 1);
      }
    }
  }

  /** `paused` is true exactly from a pause to the next resume or start that takes effect. */
  lemma PausedIff(steps: seq<Step>, run: seq<Manager>, i: nat)
    requires IsRun(steps, run) && i <= |steps|
    ensures run[i].paused <==> exists j: nat :: PausedSince(steps, run, j, i)
  {
    forall m | 0 <= m < i
      ensures PausedNext(steps, run, m)
    {
      StepAt(steps, run, m);
    }
    PausedByInduction(steps, run, i);
  }

  /** Step m stores `running` true: a start takes effect. */
  ghost predicate Starts(steps: seq<Step>, run: seq<Manager>, m: nat)
    requires |run| == |steps| + 1 && m < |steps|
  {
    steps[m].Controls? && run[m].control == StartRunning
  }

  /** Step m stores `running` false: a stop takes effect, or a thread cannot be created. */
  ghost predicate Ends(steps: seq<Step>, run: seq<Manager>, m: nat)
    requires |run| == |steps| + 1 && m < |steps|
  {
    && steps[m].Controls?
    && (run[m].control == StopRunning || (run[m].control.StartCreate? && !steps[m].creates))
  }

  ghost predicate RunningSince(steps: seq<Step>, run: seq<Manager>, j: nat, i: nat)
    requires |run| == |steps| + 1 && i <= |steps|
  {
    j < i && Starts(steps, run, j) && forall m :: j < m < i ==> !Ends(steps, run, m)
  }

  ghost predicate RunningNext(steps: seq<Step>, run: seq<Manager>, m: nat)
    requires |run| == |steps| + 1 && m < |steps|
  {
    run[m + 1].running <==> Starts(steps, run, m) || (run[m].running && !Ends(steps, run, m))
  }

  lemma {:induction false} RunningByInduction(steps: seq<Step>, run: seq<Manager>, i: nat)
    requires |run| == |steps| + 1 && i <= |steps| && !run[0].running
    requires forall m :: 0 <= m < i ==> RunningNext(steps, run, m)
    ensures run[i].running <==> exists j: nat :: RunningSince(steps, run, j, i)
  {
    if i > 0 {
      RunningByInduction(steps, run, i - 1);
      assert RunningNext(steps, run, i - 1);
      if Starts(steps, run, i - 1) {
        assert RunningSince(steps, run, i - 1, i);
      } else if run[i].running {
        var j: nat :| RunningSince(steps, run, j, i - 1);
        assert RunningSince(steps, run, j, i);
      } else if j: nat :| RunningSince(steps, run, j, i) {
        assert RunningSince(steps, run, j, i - 1);
      }
    }
  }

  /** `running` is true exactly from a start that takes effect to the next stop that does, or to
      the failure of that start. */
  lemma RunningIff(steps: seq<Step>, run: seq<Manager>, i: nat)
    requires IsRun(steps, run) && i <= |steps|
    ensures run[i].running <==> exists j: nat :: RunningSince(steps, run, j, i)
  {
    forall m | 0 <= m < i
      ensures RunningNext(steps, run, m)
    {
      StepAt(steps, run, m);
    }
    RunningByInduction(steps, run, i);
  }

  // ---------------------------------------------------------------- stop

  /** Own steps until a worker that finds `running` false has exited. */
  function ExitRank(pc: Pc): nat {
    match pc
    case AtPause => 7
    case AtState => 6
    case AtCall => 5
    case InCall => 4
    case Sleeping => 4
    case AtLoop => 3
    case AtStop => 2
    case AtReturn => 1
    case Exited => 0
  }

  lemma OwnStepEnds(m: Manager, m': Manager, id: nat)
    requires !m.running && id < |m.threads| && Leads(m, Works(id), m')
    ensures id < |m'.threads| && ExitRank(m'.threads[id].pc) < ExitRank(m.threads[id].pc)
  {
  }

  /** While the manager does not run, every worker can go on until it has exited, which takes at
      most seven steps of its own, paused or not: what stop joins does exit. */
  lemma {:induction false} StoppedWorkerExits(steps: seq<Step>, run: seq<Manager>, id: nat, j: nat, i: nat)
    requires IsRun(steps, run) && j <= i <= |steps| && id < |run[j].threads|
    requires forall m :: j <= m <= i ==> !run[m].running
    ensures id < |run[i].threads|
    ensures OwnSteps(steps, id, j, i) + ExitRank(run[i].threads[id].pc) <= ExitRank(run[j].threads[id].pc) <= 7
    ensures run[i].threads[id].pc == Exited || Enabled(run[i], Works(id))
  {
    RunKeepsTyped(steps, run, i);
    if j < i {
      StoppedWorkerExits(steps, run, id, j, i - 1);
      StepAt(steps, run, i - 1);
      if steps[i - 1] == Works(id) {
        OwnStepEnds(run[i - 1], run[i], id);
      } else {
        OthersStep(run[i - 1], steps[i - 1], run[i], id);
      }
    }
  }

  // ---------------------------------------------------------------- control calls return

  /** Own steps that the call in progress still makes at most. */
  function ControlRank(c: Control): int {
    match c
    case Resting => 0
    case StartCheck => 10
    case StartRunning => 9
    case StartUnpause => 8
    case StartState(i) => 7 - 2 * i
    case StartCreate(i) => 6 - 2 * i
    case StopCheck => 10
    case StopRunning => 9
    case StopJoin(i) => 8 - 2 * i
    case StopState(i) => 7 - 2 * i
    case StopReturn => 1
    case PauseStore => 1
    case ResumeStore => 1
  }

  function ControlSteps(steps: seq<Step>, j: nat, i: nat): nat
    requires j <= i <= |steps|
  {
    if j == i then 0 else ControlSteps(steps, j, i - 1) + (if steps[i - 1].Controls? then 1 else 0)
  }

  lemma ControlNears(m: Manager, step: Step, m': Manager)
    requires Leads(m, step, m') && m.control != Resting
    ensures ControlRank(m'.control) + (if step.Controls? then 1 else 0) <= ControlRank(m.control)
  {
  }

  ghost predicate Returns(steps: seq<Step>, run: seq<Manager>, m: nat)
    requires |run| == |steps| + 1 && m < |steps|
  {
    ControlRank(run[m + 1].control) + (if steps[m].Controls? then 1 else 0) <= ControlRank(run[m].control)
  }

  lemma {:induction false} StepsAddUp(steps: seq<Step>, run: seq<Manager>, j: nat, i: nat)
    requires |run| == |steps| + 1 && j <= i <= |steps|
    requires forall m :: j <= m < i ==> Returns(steps, run, m)
    ensures ControlSteps(steps, j, i) + ControlRank(run[i].control) <= ControlRank(run[j].control)
  {
    if j < i {
      StepsAddUp(steps, run, j, i - 1);
      assert Returns(steps, run, i - 1);
    }
  }

  /** Every call of the controlling thread returns within ten steps of its own, and it waits for
      nothing but the thread that stop joins, which is there and has not exited yet. */
  lemma ControlCallsReturn(steps: seq<Step>, run: seq<Manager>, j: nat, i: nat)
    requires IsRun(steps, run) && j <= i <= |steps|
    requires forall m :: j <= m < i ==> run[m].control != Resting
    ensures ControlSteps(steps, j, i) + ControlRank(run[i].control) <= ControlRank(run[j].control) <= 10
    ensures run[i].control == Resting || Enabled(run[i], Controls(true)) || WaitsForWorker(run[i])
  {
    RunKeepsHandlesValid(steps, run, i);
    if run[i].control.StopJoin? {
      assert HandleValid(run[i], run[i].control.i);
    }
    forall m | j <= m < i
      ensures Returns(steps, run, m)
    {
      StepAt(steps, run, m);
      ControlNears(run[m], steps[m], run[m + 1]);
    }
    StepsAddUp(steps, run, j, i);
  }

  /** Stop waits for the live worker that a handle names; as `running` is false it will exit. */
  ghost predicate WaitsForWorker(m: Manager) {
    m.control.StopJoin? && !m.running && m.control.i < |m.handles| && Live(m, m.handles[m.control.i])
  }
}
