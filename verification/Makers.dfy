/**
 Building all functions of a service in parallel: "first error wins, cancel the rest, wait for all".
 CppMakers is orderservice/internal/app/functions.generated.cpp, where tasks run on an executor and
 an error is recorded under a mutex, after stop has been requested. GoMakers is the workflow version
 in automationservice/internal/app/functions.generated.go, where coroutines only switch when they
 wait, so an error is recorded and the context cancelled in one step.
 */
module MakerErrors {
  /** What a maker can fail with: an error of its own, an error because it saw the cancellation,
      or (in the C++ version) the null result that the task itself turns into an error. */
  datatype Error = Own(task: nat, text: string) | Cancelled(task: nat) | ReturnedNull(task: nat)
}

module CppMakers {
  import opened Types
  import opened MakerErrors

  /** Raised: in the catch block. Stopping: stop has been requested, the mutex not yet taken. */
  datatype Task = Running | Built | Raised(error: Error) | Stopping(error: Error) | Failed(error: Error) {
    predicate Finished() { Built? || Failed? }
  }

  /** The call waits for task after task and then returns or rethrows. */
  datatype Call = Joining(next: nat) | Returned | Threw(error: Error)

  datatype State = State(tasks: seq<Task>, stopRequested: bool, firstError: Option<Error>, call: Call)

  datatype Step = Build(i: nat) | Raise(i: nat, error: Error) | RequestStop(i: nat) | Record(i: nat) | Join | Conclude

  function Start(n: nat): State {
    State(seq(n, _ => Running), false, None, Joining(0))
  }

  predicate Enabled(s: State, step: Step) {
    match step
    case Build(i) => i < |s.tasks| && s.tasks[i].Running?
    case Raise(i, error) =>
      i < |s.tasks| && s.tasks[i].Running? && error.task == i && (error.Cancelled? ==> s.stopRequested)
    case RequestStop(i) => i < |s.tasks| && s.tasks[i].Raised?
    case Record(i) => i < |s.tasks| && s.tasks[i].Stopping?
    case Join => s.call.Joining? && s.call.next < |s.tasks| && s.tasks[s.call.next].Finished()
    case Conclude => s.call.Joining? && s.call.next == |s.tasks|
  }

  function Next(s: State, step: Step): State
    requires Enabled(s, step)
  {
    match step
    case Build(i) => s.(tasks := s.tasks[i := Built])
    case Raise(i, error) => s.(tasks := s.tasks[i := Raised(error)])
    case RequestStop(i) => s.(tasks := s.tasks[i := Stopping(s.tasks[i].error)], stopRequested := true)
    case Record(i) =>
      s.(tasks := s.tasks[i := Failed(s.tasks[i].error)],
         firstError := if s.firstError.None? then Some(s.tasks[i].error) else s.firstError)
    case Join => s.(call := Joining(s.call.next + 1))
    case Conclude =>
      s.(stopRequested := true, call := if s.firstError.Some? then Threw(s.firstError.value) else Returned)
  }

  predicate ValidRun(s: State, steps: seq<Step>)
    decreases |steps|
  {
    steps == [] || (Enabled(s, steps[0]) && ValidRun(Next(s, steps[0]), steps[1..]))
  }

  function Exec(s: State, steps: seq<Step>): State
    requires ValidRun(s, steps)
    decreases |steps|
  {
    if steps == [] then s else Exec(Next(s, steps[0]), steps[1..])
  }

  predicate HasFailed(task: Task, error: Error) { task == Failed(error) }

  /** `task` has thrown, or is about to throw. */
  predicate HasRaised(task: Task) { task.Raised? || task.Stopping? || task.Failed? }

  /** `task` has thrown, or is about to throw, an error that is not a reaction to cancellation. */
  predicate HasRootCause(task: Task) { HasRaised(task) && !task.error.Cancelled? }

  /** Stop was requested, if at all, after some task's own error: tasks that only react come later. */
  ghost predicate StopHasRootCause(s: State) {
    (s.call.Joining? && s.stopRequested) || (exists i :: 0 <= i < |s.tasks| && HasRaised(s.tasks[i])) ==>
      exists i :: 0 <= i < |s.tasks| && HasRootCause(s.tasks[i])
  }

  ghost predicate Inv(s: State) {
    && (forall i | 0 <= i < |s.tasks| && s.tasks[i].Failed? :: s.firstError.Some? && s.tasks[i].error.task == i)
    && (forall i | 0 <= i < |s.tasks| && (s.tasks[i].Raised? || s.tasks[i].Stopping?) :: s.tasks[i].error.task == i)
    && (s.firstError.Some? ==> exists i :: 0 <= i < |s.tasks| && HasFailed(s.tasks[i], s.firstError.value))
    && (s.call.Joining? ==> s.call.next <= |s.tasks| && forall i | 0 <= i < s.call.next :: s.tasks[i].Finished())
    && (!s.call.Joining? ==>
          && (forall i | 0 <= i < |s.tasks| :: s.tasks[i].Finished()) && s.stopRequested
          && s.call == if s.firstError.Some? then Threw(s.firstError.value) else Returned)
    && StopHasRootCause(s)
  }

  lemma StepKeepsRootCause(s: State, step: Step)
    requires StopHasRootCause(s) && Enabled(s, step)
    requires s.call.Joining? || forall i | 0 <= i < |s.tasks| :: s.tasks[i].Finished()
    ensures StopHasRootCause(Next(s, step))
  {
    var s' := Next(s, step);
    if exists i :: 0 <= i < |s.tasks| && HasRootCause(s.tasks[i]) {
      var i :| 0 <= i < |s.tasks| && HasRootCause(s.tasks[i]);
      assert HasRootCause(s'.tasks[i]);
    } else if step.Raise? {
      assert HasRootCause(s'.tasks[step.i]);
    } else {
      assert forall i | 0 <= i < |s.tasks| :: HasRaised(s'.tasks[i]) ==> HasRaised(s.tasks[i]);
    }
  }

  lemma StepKeepsInv(s: State, step: Step)
    requires Inv(s) && Enabled(s, step)
    ensures Inv(Next(s, step))
    ensures s.firstError.Some? ==> Next(s, step).firstError == s.firstError
  {
    StepKeepsRootCause(s, step);
    hide StopHasRootCause;
    var s' := Next(s, step);
    if s.firstError.Some? {
      var i :| 0 <= i < |s.tasks| && HasFailed(s.tasks[i], s.firstError.value);
      assert HasFailed(s'.tasks[i], s.firstError.value);
    } else if step.Record? {
      assert HasFailed(s'.tasks[step.i], s'.firstError.value);
    }
  }

  lemma {:induction false} RunKeepsInv(s: State, steps: seq<Step>)
    requires Inv(s) && ValidRun(s, steps)
    ensures Inv(Exec(s, steps)) && |Exec(s, steps).tasks| == |s.tasks|
    ensures s.firstError.Some? ==> Exec(s, steps).firstError == s.firstError
    decreases |steps|
  {
    hide Inv;
    if steps != [] {
      StepKeepsInv(s, steps[0]);
      RunKeepsInv(Next(s, steps[0]), steps[1..]);
    }
  }

  /** For any number of tasks and any interleaving: the call ends only after every task has; it returns
      normally exactly when every function was built, and otherwise rethrows the error of a failed task. */
  lemma CallOutcome(n: nat, steps: seq<Step>)
    requires ValidRun(Start(n), steps) && !Exec(Start(n), steps).call.Joining?
    ensures var s := Exec(Start(n), steps);
            && |s.tasks| == n && (forall i | 0 <= i < n :: s.tasks[i].Finished()) && s.stopRequested
            && (s.call == Returned <==> forall i | 0 <= i < n :: s.tasks[i].Built?)
            && (s.call.Threw? ==> s.call.error.task < n && s.tasks[s.call.error.task] == Failed(s.call.error))
  {
    RunKeepsInv(Start(n), steps);
  }

  /** The recorded error is never overwritten, and while tasks are still running there is one as soon
      as some task has failed. */
  lemma FirstErrorStays(n: nat, steps: seq<Step>, more: seq<Step>)
    requires ValidRun(Start(n), steps) && ValidRun(Exec(Start(n), steps), more)
    ensures var s, later := Exec(Start(n), steps), Exec(Exec(Start(n), steps), more);
            && (s.firstError.Some? ==> later.firstError == s.firstError)
            && (s.firstError.Some? <==> exists i :: 0 <= i < |s.tasks| && s.tasks[i].Failed?)
  {
    RunKeepsInv(Start(n), steps);
    RunKeepsInv(Exec(Start(n), steps), more);
    var s := Exec(Start(n), steps);
    if s.firstError.Some? {
      var i :| 0 <= i < |s.tasks| && HasFailed(s.tasks[i], s.firstError.value);
      assert s.tasks[i].Failed?;
    }
  }

  /** Cancellation never starts by itself: behind a rethrown error there is always a task whose own
      failure was not a reaction to cancellation. */
  lemma RootCauseExists(n: nat, steps: seq<Step>)
    requires ValidRun(Start(n), steps) && Exec(Start(n), steps).call.Threw?
    ensures var tasks := Exec(Start(n), steps).tasks;
            |tasks| == n && exists i :: 0 <= i < n && tasks[i].Failed? && !tasks[i].error.Cancelled?
  {
    RunKeepsInv(Start(n), steps);
    var s := Exec(Start(n), steps);
    var i :| 0 <= i < |s.tasks| && HasRootCause(s.tasks[i]);
    assert s.tasks[i].Finished();
  }

  /** The call rethrows the error of the task that takes the mutex first, whenever tasks raised theirs. */
  lemma FirstRecordedIsThrown(n: nat, steps: seq<Step>, i: nat, more: seq<Step>)
    requires ValidRun(Start(n), steps)
    requires Exec(Start(n), steps).firstError.None? && Enabled(Exec(Start(n), steps), Record(i))
    requires var s := Next(Exec(Start(n), steps), Record(i));
             ValidRun(s, more) && !Exec(s, more).call.Joining?
    ensures var s := Exec(Start(n), steps);
            Exec(Next(s, Record(i)), more).call == Threw(s.tasks[i].error)
  {
    RunKeepsInv(Start(n), steps);
    StepKeepsInv(Exec(Start(n), steps), Record(i));
    RunKeepsInv(Next(Exec(Start(n), steps), Record(i)), more);
  }

  /** So the root cause can be lost: stop is requested before the mutex is taken, and a task that reacts
      to it may record its error first. */
  lemma RootCauseMayBeLost()
    ensures exists steps ::
              && ValidRun(Start(2), steps)
              && Exec(Start(2), steps).tasks == [Failed(Own(0, "root cause")), Failed(Cancelled(1))]
              && Exec(Start(2), steps).call == Threw(Cancelled(1))
  {
    var cause := Own(0, "root cause");
    var s1 := Next(Start(2), Raise(0, cause));
    var s2 := Next(s1, RequestStop(0));
    var s3 := Next(s2, Raise(1, Cancelled(1)));
    var s4 := Next(s3, RequestStop(1));
    var s5 := Next(s4, Record(1));
    var s6 := Next(s5, Record(0));
    var s7 := Next(s6, Join);
    var s8 := Next(s7, Join);
    var end := Next(s8, Conclude);
    assert end.tasks == [Failed(cause), Failed(Cancelled(1))] && end.call == Threw(Cancelled(1));
    hide Next, Enabled;
    var r8 := Prepend(s8, Conclude, [], end);
    var r7 := Prepend(s7, Join, r8, end);
    var r6 := Prepend(s6, Join, r7, end);
    var r5 := Prepend(s5, Record(0), r6, end);
    var r4 := Prepend(s4, Record(1), r5, end);
    var r3 := Prepend(s3, RequestStop(1), r4, end);
    var r2 := Prepend(s2, Raise(1, Cancelled(1)), r3, end);
    var r1 := Prepend(s1, RequestStop(0), r2, end);
    var r0 := Prepend(Start(2), Raise(0, cause), r1, end);
  }

  lemma Prepend(s: State, step: Step, rest: seq<Step>, end: State) returns (steps: seq<Step>)
    requires Enabled(s, step) && ValidRun(Next(s, step), rest) && Exec(Next(s, step), rest) == end
    ensures steps == [step] + rest && ValidRun(s, steps) && Exec(s, steps) == end
  {
    steps := [step] + rest;
    assert steps[1..] == rest;
  }

  // ---------- When the root cause can be lost ----------

  /** Only the makers in `reacts` fail because they see the cancellation. */
  predicate Respects(steps: seq<Step>, reacts: set<nat>) {
    forall k | 0 <= k < |steps| :: StepRespects(steps[k], reacts)
  }

  predicate StepRespects(step: Step, reacts: set<nat>) {
    step.Raise? && step.error.Cancelled? ==> step.i in reacts
  }

  /** Only the makers in `reacts` have failed because they saw the cancellation. */
  ghost predicate OnlyReact(s: State, reacts: set<nat>) {
    forall i: nat | i < |s.tasks| && HasRaised(s.tasks[i]) && s.tasks[i].error.Cancelled? :: i in reacts
  }

  lemma {:induction false} RunReacts(s: State, steps: seq<Step>, reacts: set<nat>)
    requires OnlyReact(s, reacts) && ValidRun(s, steps) && Respects(steps, reacts)
    ensures OnlyReact(Exec(s, steps), reacts)
    decreases |steps|
  {
    if steps != [] {
      assert StepRespects(steps[0], reacts);
      assert OnlyReact(Next(s, steps[0]), reacts);
      assert forall k | 0 <= k < |steps| - 1 :: steps[1..][k] == steps[k + 1];
      hide Next, Enabled, OnlyReact;
      RunReacts(Next(s, steps[0]), steps[1..], reacts);
    }
  }

  /** The call rethrows a reaction to cancellation. */
  predicate LosesCause(s: State) { s.call.Threw? && s.call.error.Cancelled? }

  lemma LostCauseNeedsReaction(n: nat, reacts: set<nat>, steps: seq<Step>) returns (r: nat)
    requires ValidRun(Start(n), steps) && Respects(steps, reacts) && LosesCause(Exec(Start(n), steps))
    ensures n >= 2 && r < n && r in reacts
  {
    RunReacts(Start(n), steps, reacts);
    CallOutcome(n, steps);
    RootCauseExists(n, steps);
    hide Start, Exec, ValidRun;
    var s := Exec(Start(n), steps);
    r := s.call.error.task;
    var i :| 0 <= i < n && s.tasks[i].Failed? && !s.tasks[i].error.Cancelled?;
    assert HasRaised(s.tasks[r]) && i != r;
  }

  /** Build what is still running, wait for every task, and end the call. */
  lemma {:induction false} Finish(s: State) returns (steps: seq<Step>)
    requires s.call.Joining? && s.call.next <= |s.tasks|
    requires forall i | s.call.next <= i < |s.tasks| :: s.tasks[i].Running? || s.tasks[i].Finished()
    ensures ValidRun(s, steps) && (forall k | 0 <= k < |steps| :: !steps[k].Raise?)
    ensures Exec(s, steps).call == if s.firstError.Some? then Threw(s.firstError.value) else Returned
    decreases |s.tasks| - s.call.next
  {
    var i := s.call.next;
    if i == |s.tasks| {
      steps := Prepend(s, Conclude, [], Next(s, Conclude));
    } else if s.tasks[i].Running? {
      var s1 := Next(s, Build(i));
      var s2 := Next(s1, Join);
      var rest := Finish(s2);
      var last := Prepend(s1, Join, rest, Exec(s2, rest));
      steps := Prepend(s, Build(i), last, Exec(s2, rest));
    } else {
      var s1 := Next(s, Join);
      var rest := Finish(s1);
      steps := Prepend(s, Join, rest, Exec(s1, rest));
    }
  }

  /** Task `o` fails and requests stop; task `r` sees it, fails, and takes the mutex first. */
  lemma LosingRun(n: nat, o: nat, r: nat) returns (steps: seq<Step>)
    requires o < n && r < n && o != r
    ensures ValidRun(Start(n), steps) && Respects(steps, {r}) && LosesCause(Exec(Start(n), steps))
  {
    var cause := Own(o, "");
    var s1 := Next(Start(n), Raise(o, cause));
    var s2 := Next(s1, RequestStop(o));
    var s3 := Next(s2, Raise(r, Cancelled(r)));
    var s4 := Next(s3, RequestStop(r));
    var s5 := Next(s4, Record(r));
    var s6 := Next(s5, Record(o));
    var r6 := Finish(s6);
    var end := Exec(s6, r6);
    hide Next, Enabled, Exec, ValidRun;
    var r5 := Prepend(s5, Record(o), r6, end);
    var r4 := Prepend(s4, Record(r), r5, end);
    var r3 := Prepend(s3, RequestStop(r), r4, end);
    var r2 := Prepend(s2, Raise(r, Cancelled(r)), r3, end);
    var r1 := Prepend(s1, RequestStop(o), r2, end);
    steps := Prepend(Start(n), Raise(o, cause), r1, end);
  }

  /** Any failure of a task's own, a null result included, may be the one that the call rethrows. */
  lemma AnyOwnFailureMayBeThrown(n: nat, i: nat, error: Error) returns (steps: seq<Step>)
    requires i < n && error.task == i && !error.Cancelled?
    ensures ValidRun(Start(n), steps) && Exec(Start(n), steps).call == Threw(error)
  {
    var s1 := Next(Start(n), Raise(i, error));
    var s2 := Next(s1, RequestStop(i));
    var s3 := Next(s2, Record(i));
    var r3 := Finish(s3);
    var end := Exec(s3, r3);
    hide Next, Enabled, Exec, ValidRun;
    var r2 := Prepend(s2, Record(i), r3, end);
    var r1 := Prepend(s1, RequestStop(i), r2, end);
    steps := Prepend(Start(n), Raise(i, error), r1, end);
  }

  /** For any number of tasks, and whichever makers react to cancellation by failing: some run rethrows such
      a reaction in place of its cause exactly when there is such a maker and another task beside it. */
  lemma RootCauseMayBeLostIff(n: nat, reacts: set<nat>)
    ensures (exists steps :: ValidRun(Start(n), steps) && Respects(steps, reacts) && LosesCause(Exec(Start(n), steps)))
            <==> n >= 2 && exists r: nat :: r < n && r in reacts
  {
    hide LosesCause;
    if exists steps :: ValidRun(Start(n), steps) && Respects(steps, reacts) && LosesCause(Exec(Start(n), steps)) {
      var steps :| ValidRun(Start(n), steps) && Respects(steps, reacts) && LosesCause(Exec(Start(n), steps));
      var r := LostCauseNeedsReaction(n, reacts, steps);
    }
    if n >= 2 && exists r: nat :: r < n && r in reacts {
      var r: nat :| r < n && r in reacts;
      var steps := LosingRun(n, if r == 0 then 1 else 0, r);
      assert Respects(steps, reacts);
    }
  }

  /** So while no maker fails because of the cancellation, what is rethrown is some task's own failure. */
  lemma WithoutReactionsCauseIsThrown(n: nat, steps: seq<Step>)
    requires ValidRun(Start(n), steps) && Respects(steps, {}) && Exec(Start(n), steps).call.Threw?
    ensures !Exec(Start(n), steps).call.error.Cancelled?
  {
    if LosesCause(Exec(Start(n), steps)) {
      var r := LostCauseNeedsReaction(n, {}, steps);
    }
  }
}

module GoMakers {
  import opened Types
  import opened MakerErrors

  /** What is known of a maker before the start: whether it is configured, and if so, whether it might
      return neither a function nor an error. This version checks neither. */
  datatype Maker = Unconfigured | Configured(mayReturnNothing: bool)

  /** Skipped: the maker is not configured, so no coroutine is started for it. `saw` records that the maker
      has read Err() and found the context cancelled; `built` that it returned a function. */
  datatype Task = Skipped | Running(saw: bool) | Done(saw: bool, built: bool, error: Option<Error>) {
    predicate HasSeen() { !Skipped? && saw }

    predicate HasFailed() { Done? && error.Some? }

    /** The service has this function. */
    predicate IsBuilt() { Done? && built }
  }

  datatype State = State(
    makers: seq<Maker>, tasks: seq<Task>, canceled: bool, firstError: Option<Error>, waiting: bool)

  datatype Step = ReadErr(i: nat) | Finish(i: nat, built: bool, error: Option<Error>) | EndWait

  function Start(makers: seq<Maker>): State {
    State(makers,
          seq(|makers|, i requires 0 <= i < |makers| => if makers[i].Unconfigured? then Skipped else Running(false)),
          false, None, true)
  }

  predicate Enabled(s: State, step: Step) {
    match step
    case ReadErr(i) => i < |s.tasks| && s.tasks[i].Running?
    case Finish(i, built, error) =>
      && i < |s.tasks| && s.tasks[i].Running?
      && (built || error.Some? || (i < |s.makers| && s.makers[i] == Configured(true)))
      && (error.Some? ==> error.value.task == i && !error.value.ReturnedNull?
                          && (error.value.Cancelled? ==> s.tasks[i].saw))
    case EndWait => s.waiting && forall i | 0 <= i < |s.tasks| :: !s.tasks[i].Running?
  }

  function Next(s: State, step: Step): State
    requires Enabled(s, step)
  {
    match step
    case ReadErr(i) => s.(tasks := s.tasks[i := Running(s.tasks[i].saw || s.canceled)])
    case Finish(i, built, error) =>
      var s' := s.(tasks := s.tasks[i := Done(s.tasks[i].saw, built, error)]);
      if error.Some? && s.firstError.None? then s'.(firstError := error, canceled := true) else s'
    case EndWait => s.(canceled := true, waiting := false)
  }

  /** The group's own fields and the two places that change them. */
  class WorkflowMakerGroup {
    var firstError: Option<Error>
    var canceled: bool

    constructor ()
      ensures firstError == None && !canceled
    {
      firstError, canceled := None, false;
    }

    ghost predicate Shows(s: State)
      reads this
    {
      firstError == s.firstError && canceled == s.canceled
    }

    /** The rest of the closure in Go, once `run` has returned; nothing else runs in between. */
    method OnReturn(error: Option<Error>)
      modifies this
      ensures forall s, i: nat, built | old(Shows(s)) && Enabled(s, Finish(i, built, error)) ::
                Shows(Next(s, Finish(i, built, error)))
      ensures old(firstError.Some?) ==> firstError == old(firstError) && canceled == old(canceled)
      ensures old(firstError.None?) ==> firstError == error && canceled == (old(canceled) || error.Some?)
    {
      if error.Some? && firstError.None? {
        firstError := error;
        canceled := true;
      }
    }

    /** Wait, after the wait group has been drained. */
    method OnDrained() returns (error: Option<Error>)
      modifies this
      ensures forall s | old(Shows(s)) && Enabled(s, EndWait) :: Shows(Next(s, EndWait))
      ensures error == firstError == old(firstError) && canceled
    {
      canceled := true;
      error := firstError;
    }
  }

  predicate ValidRun(s: State, steps: seq<Step>)
    decreases |steps|
  {
    steps == [] || (Enabled(s, steps[0]) && ValidRun(Next(s, steps[0]), steps[1..]))
  }

  function Exec(s: State, steps: seq<Step>): State
    requires ValidRun(s, steps)
    decreases |steps|
  {
    if steps == [] then s else Exec(Next(s, steps[0]), steps[1..])
  }

  predicate FailedWith(task: Task, error: Error) { task.Done? && task.error == Some(error) && !task.saw }

  /** A task is what its maker allows it to be. */
  predicate Fits(maker: Maker, task: Task) {
    && (maker.Unconfigured? <==> task.Skipped?)
    && (task.Done? && !task.built && task.error.None? ==> maker == Configured(true))
  }

  ghost predicate Inv(s: State) {
    && |s.tasks| == |s.makers| && (forall i | 0 <= i < |s.tasks| :: Fits(s.makers[i], s.tasks[i]))
    && (s.waiting ==> (s.canceled <==> s.firstError.Some?))
    && (!s.waiting ==> forall i | 0 <= i < |s.tasks| :: !s.tasks[i].Running?)
    && (forall i | 0 <= i < |s.tasks| && s.tasks[i].HasSeen() :: s.firstError.Some?)
    && (forall i | 0 <= i < |s.tasks| && s.tasks[i].HasFailed() :: s.firstError.Some?)
    && (s.firstError.Some? ==>
          && s.firstError.value.task < |s.tasks| && s.firstError.value.Own?
          && FailedWith(s.tasks[s.firstError.value.task], s.firstError.value))
  }

  lemma {:induction false} RunKeepsInv(s: State, steps: seq<Step>)
    requires Inv(s) && ValidRun(s, steps)
    ensures Inv(Exec(s, steps)) && Exec(s, steps).makers == s.makers
    ensures s.firstError.Some? ==> Exec(s, steps).firstError == s.firstError
    decreases |steps|
  {
    if steps != [] {
      StepKeepsInv(s, steps[0]);
      hide Inv;
      RunKeepsInv(Next(s, steps[0]), steps[1..]);
    }
  }

  lemma StepKeepsInv(s: State, step: Step)
    requires Inv(s) && Enabled(s, step)
    ensures Inv(Next(s, step)) && Next(s, step).makers == s.makers
    ensures s.firstError.Some? ==> Next(s, step).firstError == s.firstError
  {
  }

  /** The cooperative version reports a root cause: before Wait ends, cancellation means that an error is
      already recorded, so the first error is never overwritten, never a reaction to cancellation, and
      never comes from a maker that had seen the cancellation. Wait ends after all makers have, and
      reports no error exactly when none of them failed. */
  lemma FirstErrorIsRootCause(makers: seq<Maker>, steps: seq<Step>, more: seq<Step>)
    requires ValidRun(Start(makers), steps) && ValidRun(Exec(Start(makers), steps), more)
    ensures var s, later := Exec(Start(makers), steps), Exec(Exec(Start(makers), steps), more);
            && |s.tasks| == |makers|
            && (s.waiting && s.canceled ==> s.firstError.Some?)
            && (s.firstError.Some? ==> later.firstError == s.firstError)
            && (s.firstError.Some? ==>
                  && s.firstError.value.Own? && s.firstError.value.task < |makers|
                  && s.tasks[s.firstError.value.task].Done?
                  && !s.tasks[s.firstError.value.task].saw
                  && s.tasks[s.firstError.value.task].error == s.firstError)
            && (!s.waiting ==>
                  && (forall i | 0 <= i < |makers| :: !s.tasks[i].Running?)
                  && (s.firstError.None? <==> forall i | 0 <= i < |makers| :: !s.tasks[i].HasFailed()))
  {
    RunKeepsInv(Start(makers), steps);
    RunKeepsInv(Exec(Start(makers), steps), more);
  }

  // ---------- Cancellation ----------

  predicate Failed(task: Task, error: Error) { task.Done? && task.error == Some(error) }

  /** Some maker has failed because it saw the cancellation. */
  predicate SomeMakerReacted(s: State) {
    exists i: nat :: i < |s.tasks| && Failed(s.tasks[i], Cancelled(i))
  }

  /** A maker that has failed because of the cancellation has seen it. */
  ghost predicate ReactedAfterSeeing(s: State) {
    forall i: nat | i < |s.tasks| && s.tasks[i].HasFailed() && s.tasks[i].error.value.Cancelled? :: s.tasks[i].saw
  }

  lemma {:induction false} RunReactsAfterSeeing(s: State, steps: seq<Step>)
    requires ReactedAfterSeeing(s) && ValidRun(s, steps)
    ensures ReactedAfterSeeing(Exec(s, steps))
    decreases |steps|
  {
    if steps != [] {
      assert ReactedAfterSeeing(Next(s, steps[0]));
      hide ReactedAfterSeeing, Next, Enabled;
      RunReactsAfterSeeing(Next(s, steps[0]), steps[1..]);
    }
  }

  lemma ReactionNeedsTwoMakers(makers: seq<Maker>, steps: seq<Step>) returns (i: nat, j: nat)
    requires ValidRun(Start(makers), steps) && SomeMakerReacted(Exec(Start(makers), steps))
    ensures i < |makers| && j < |makers| && i != j && makers[i].Configured? && makers[j].Configured?
  {
    RunKeepsInv(Start(makers), steps);
    RunReactsAfterSeeing(Start(makers), steps);
    hide Start, Exec, ValidRun;
    var s := Exec(Start(makers), steps);
    i :| i < |s.tasks| && Failed(s.tasks[i], Cancelled(i));
    assert s.tasks[i].HasFailed() && s.tasks[i].HasSeen();
    j := s.firstError.value.task;
    assert Fits(makers[i], s.tasks[i]) && Fits(makers[j], s.tasks[j]);
  }

  /** Maker i fails on its own account, maker j reads Err(), sees the cancellation and fails with it. */
  lemma ReactingRun(makers: seq<Maker>, i: nat, j: nat) returns (steps: seq<Step>)
    requires i < |makers| && j < |makers| && i != j && makers[i].Configured? && makers[j].Configured?
    ensures ValidRun(Start(makers), steps) && SomeMakerReacted(Exec(Start(makers), steps))
    ensures Exec(Start(makers), steps).firstError == Some(Own(i, ""))
  {
    var own, reaction := Finish(i, false, Some(Own(i, ""))), Finish(j, false, Some(Cancelled(j)));
    var s1 := Next(Start(makers), own);
    var s2 := Next(s1, ReadErr(j));
    var end := Next(s2, reaction);
    assert Failed(end.tasks[j], Cancelled(j));
    hide Next, Enabled, Start;
    var r2 := Prepend(s2, reaction, [], end);
    var r1 := Prepend(s1, ReadErr(j), r2, end);
    steps := Prepend(Start(makers), own, r1, end);
  }

  /** Makers do see the cancellation: one of them can fail with it exactly when two makers are configured, since it
      takes another maker's own failure first. */
  lemma MakerMayReactIff(makers: seq<Maker>)
    ensures (exists steps :: ValidRun(Start(makers), steps) && SomeMakerReacted(Exec(Start(makers), steps)))
            <==> exists i, j :: 0 <= i < j < |makers| && makers[i].Configured? && makers[j].Configured?
  {
    hide SomeMakerReacted;
    if exists steps :: ValidRun(Start(makers), steps) && SomeMakerReacted(Exec(Start(makers), steps)) {
      var steps :| ValidRun(Start(makers), steps) && SomeMakerReacted(Exec(Start(makers), steps));
      var i, j := ReactionNeedsTwoMakers(makers, steps);
      assert if i < j then 0 <= i < j < |makers| else 0 <= j < i < |makers|;
    }
    if exists i, j :: 0 <= i < j < |makers| && makers[i].Configured? && makers[j].Configured? {
      var i, j :| 0 <= i < j < |makers| && makers[i].Configured? && makers[j].Configured?;
      var steps := ReactingRun(makers, i, j);
    }
  }

  // ---------- Missing functions ----------

  /** Wait has returned without an error. */
  predicate ReturnsNormally(s: State) { !s.waiting && s.firstError.None? }

  predicate AllBuilt(s: State) {
    forall i | 0 <= i < |s.tasks| :: s.tasks[i].IsBuilt()
  }

  /** After any run in which Wait has ended: a function is missing without an error exactly when no maker
      returned an error and some maker was not configured or returned no function. */
  lemma MissingFunctionIsUnnoticedIff(makers: seq<Maker>, steps: seq<Step>)
    requires ValidRun(Start(makers), steps) && !Exec(Start(makers), steps).waiting
    ensures var s := Exec(Start(makers), steps);
            && |s.tasks| == |makers|
            && (s.firstError.None? && !AllBuilt(s) <==>
                  && (forall i | 0 <= i < |makers| && makers[i].Configured? ::
                        s.tasks[i].Done? && s.tasks[i].error.None?)
                  && (exists i :: 0 <= i < |makers|
                                  && (makers[i].Unconfigured? || (s.tasks[i].Done? && !s.tasks[i].built))))
  {
    RunKeepsInv(Start(makers), steps);
    hide Exec, ValidRun;
    var s := Exec(Start(makers), steps);
    assert forall i | 0 <= i < |makers| :: Fits(makers[i], s.tasks[i]);
    if !AllBuilt(s) {
      var i :| 0 <= i < |s.tasks| && !s.tasks[i].IsBuilt();
      assert makers[i].Unconfigured? || (s.tasks[i].Done? && !s.tasks[i].built);
    }
  }

  /** Every maker that still runs returns without an error, and without a function if it may. */
  lemma {:induction false} ReturnAll(s: State, i: nat) returns (steps: seq<Step>)
    requires Inv(s) && s.waiting && s.firstError.None? && i <= |s.tasks|
    requires forall j | 0 <= j < i && s.makers[j] != Configured(false) :: !s.tasks[j].IsBuilt()
    requires forall j | 0 <= j < |s.tasks| :: if j < i then !s.tasks[j].Running? else !s.tasks[j].Done?
    ensures ValidRun(s, steps) && ReturnsNormally(Exec(s, steps))
    ensures var end := Exec(s, steps);
            |end.tasks| == |s.tasks|
            && forall j | 0 <= j < |s.tasks| && s.makers[j] != Configured(false) :: !end.tasks[j].IsBuilt()
    decreases |s.tasks| - i
  {
    if i == |s.tasks| {
      steps := Prepend(s, EndWait, [], Next(s, EndWait));
    } else if s.tasks[i].Skipped? {
      steps := ReturnAll(s, i + 1);
    } else {
      var step := Finish(i, !s.makers[i].mayReturnNothing, None);
      StepKeepsInv(s, step);
      var rest := ReturnAll(Next(s, step), i + 1);
      steps := Prepend(s, step, rest, Exec(Next(s, step), rest));
    }
  }

  lemma Prepend(s: State, step: Step, rest: seq<Step>, end: State) returns (steps: seq<Step>)
    requires Enabled(s, step) && ValidRun(Next(s, step), rest) && Exec(Next(s, step), rest) == end
    ensures steps == [step] + rest && ValidRun(s, steps) && Exec(s, steps) == end
  {
    steps := [step] + rest;
    assert steps[1..] == rest;
  }

  /** Unlike in the C++ version, a normal return does not mean that every function is built. Over all runs it
      does exactly when every maker is configured and none may return neither a function nor an error. */
  lemma NormalReturnIsCompleteIff(makers: seq<Maker>)
    ensures (forall steps | ValidRun(Start(makers), steps) && ReturnsNormally(Exec(Start(makers), steps)) ::
               AllBuilt(Exec(Start(makers), steps)))
            <==> forall i | 0 <= i < |makers| :: makers[i] == Configured(false)
  {
    if forall i | 0 <= i < |makers| :: makers[i] == Configured(false) {
      forall steps | ValidRun(Start(makers), steps) && ReturnsNormally(Exec(Start(makers), steps))
        ensures AllBuilt(Exec(Start(makers), steps))
      {
        RunKeepsInv(Start(makers), steps);
        assert forall i | 0 <= i < |makers| :: Fits(makers[i], Exec(Start(makers), steps).tasks[i]);
      }
    } else {
      var steps := ReturnAll(Start(makers), 0);
    }
  }

  /** Two inputs: a maker that is not configured, and one that returns nothing. */
  lemma MissingFunctionGoesUnnoticed(maker: Maker)
    requires maker == Unconfigured || maker == Configured(true)
    ensures exists steps :: ValidRun(Start([maker]), steps) && ReturnsNormally(Exec(Start([maker]), steps))
                            && !AllBuilt(Exec(Start([maker]), steps))
  {
    NormalReturnIsCompleteIff([maker]);
    assert [maker][0] != Configured(false);
  }
}
