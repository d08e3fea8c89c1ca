/**
 When orders of the composed system are answered: the deadline an order is given when it is submitted, the
 timer that is armed for it later, and the clock.
 */
module ShopTime {
  import opened Types
  import opened Aggregation
  import opened Submission
  import opened OrderRun
  import opened Shop
  import opened ShopSafety
  import R = Reservation

  // ---------- What a submitted order starts with ----------

  /** A submitted order has the earlier of its caller's deadline and the service's own, and nothing else yet. */
  lemma SubmittedOrder(config: Config, s: State, order: Order, caller: Option<int>)
    requires Enabled(s, Submit(order, caller))
    ensures var s', o := Next(config, s, Submit(order, caller)), |s.orders|;
            && |s'.orders| == o + 1 && s'.orders[..o] == s.orders
            && s'.inventory == s.inventory && s'.events == s.events && s'.now == s.now
            && var placed := s'.orders[o];
            && placed.run.order == order && placed.run.start == s.now
            && placed.run.deadline
               == (if caller.None? then s.now + config.timeout else Min(caller.value, s.now + config.timeout))
            && placed.run.fireAt.None? && !placed.run.timerFired
            && |placed.run.outcomes| == |placed.calls| == |order.items|
            && (forall i | 0 <= i < |order.items| :: placed.run.outcomes[i].None? && placed.calls[i].None?)
            && placed.run.agg == Aggregate([], false, Http(None, Empty), 0)
  {
  }

  lemma StepKeepsDeadline(config: Config, s: State, step: Step, o: nat)
    requires o < |s.orders| && Enabled(s, step)
    ensures o < |Next(config, s, step).orders|
    ensures var run, run' := s.orders[o].run, Next(config, s, step).orders[o].run;
            run'.order == run.order && run'.start == run.start && run'.deadline == run.deadline
  {
    hide Deliver, EndRequest, Begin;
  }

  lemma {:induction false} RunKeepsDeadline(config: Config, s: State, steps: seq<Step>, o: nat)
    requires o < |s.orders| && ValidRun(config, s, steps)
    ensures o < |Exec(config, s, steps).orders|
    ensures var run, run' := s.orders[o].run, Exec(config, s, steps).orders[o].run;
            run'.order == run.order && run'.start == run.start && run'.deadline == run.deadline
    decreases |steps|
  {
    if steps != [] {
      StepKeepsDeadline(config, s, steps[0], o);
      hide Next, Enabled;
      RunKeepsDeadline(config, Next(config, s, steps[0]), steps[1..], o);
    }
  }

  // ---------- The clock and the timer ----------

  /** The time that passes during a run. */
  function Elapsed(steps: seq<Step>): int {
    if steps == [] then 0 else (if steps[0].Tick? then steps[0].duration else 0) + Elapsed(steps[1..])
  }

  lemma {:induction false} ClockIsElapsedTime(config: Config, s: State, steps: seq<Step>)
    requires ValidRun(config, s, steps)
    ensures Exec(config, s, steps).now == s.now + Elapsed(steps)
    decreases |steps|
  {
    if steps != [] {
      ClockIsElapsedTime(config, Next(config, s, steps[0]), steps[1..]);
    }
  }

  /** A timer that is armed now will fire the margin ahead of the deadline, or at once if that has passed. */
  lemma ArmedTimer(config: Config, s: State, o: nat)
    requires Enabled(s, ArmTimer(o))
    ensures var run := s.orders[o].run;
            var soft := run.deadline - config.margin;
            Next(config, s, ArmTimer(o)).orders[o].run == run.(fireAt := Some(if soft < s.now then s.now else soft))
  {
  }

  // ---------- Answered by the deadline ----------

  /** When the timer of `run` fires or, while it is not armed, has to be armed at the latest. */
  function LatestTimer(run: Run): int {
    if run.fireAt.Some? then run.fireAt.value else Max(run.deadline, run.start)
  }

  /** The timer of order `o` is armed in time and delivered promptly: the clock does not move past it while it is
      still to fire, nor past the deadline of the order while it is not armed. */
  predicate PromptFor(config: Config, s: State, steps: seq<Step>, o: nat)
    requires ValidRun(config, s, steps)
    decreases |steps|
  {
    steps != [] ==> PromptStep(s, steps[0], o) && PromptFor(config, Next(config, s, steps[0]), steps[1..], o)
  }

  predicate PromptStep(s: State, step: Step, o: nat) {
    step.Tick? && o < |s.orders| && !s.orders[o].run.timerFired ==>
      s.now + step.duration <= LatestTimer(s.orders[o].run)
  }

  /** The timer of order `o` lies ahead, and not after a deadline that was open at submission. */
  predicate TimerAhead(s: State, o: nat) {
    && o < |s.orders|
    && var run := s.orders[o].run;
    && (!run.timerFired ==> s.now <= LatestTimer(run))
    && LatestTimer(run) <= Max(run.deadline, run.start)
    && (run.timerFired ==> run.fireAt.Some?)
  }

  lemma PromptStepKeepsTimerAhead(config: Config, s: State, step: Step, o: nat)
    requires config.margin >= 0 && Enabled(s, step) && TimerAhead(s, o) && PromptStep(s, step, o)
    ensures TimerAhead(Next(config, s, step), o)
  {
    hide Deliver, EndRequest, Begin, R.Enabled, R.Next;
  }

  lemma {:induction false} PromptRunKeepsTimerAhead(config: Config, s: State, steps: seq<Step>, o: nat)
    requires config.margin >= 0 && ValidRun(config, s, steps) && PromptFor(config, s, steps, o) && TimerAhead(s, o)
    ensures TimerAhead(Exec(config, s, steps), o)
    decreases |steps|
  {
    if steps != [] {
      PromptStepKeepsTimerAhead(config, s, steps[0], o);
      hide Next, Enabled, TimerAhead, PromptStep;
      PromptRunKeepsTimerAhead(config, Next(config, s, steps[0]), steps[1..], o);
    }
  }

  /** An order that is submitted in `s` is still the same after `after`, with the same deadline. */
  lemma SubmittedThen(config: Config, s: State, order: Order, caller: Option<int>, after: seq<Step>)
    requires Inv(s) && AcceptedOrder(order) && ValidRun(config, Next(config, s, Submit(order, caller)), after)
    ensures var s', o := Exec(config, Next(config, s, Submit(order, caller)), after), |s.orders|;
            && Inv(s') && o < |s'.orders| && s'.orders[o].run.order == order && s'.orders[o].run.start == s.now
            && s'.orders[o].run.deadline
               == (if caller.None? then s.now + config.timeout else Min(caller.value, s.now + config.timeout))
  {
    var s1 := Next(config, s, Submit(order, caller));
    SubmittedOrder(config, s, order, caller);
    StepKeepsInv(config, s, Submit(order, caller));
    hide Inv, Next, Exec, ValidRun;
    RunKeepsInv(config, s1, after);
    RunKeepsDeadline(config, s1, after, |s.orders|);
  }

  lemma SubmittedStaysAhead(config: Config, s: State, order: Order, caller: Option<int>, after: seq<Step>)
    requires config.margin >= 0 && AcceptedOrder(order)
    requires ValidRun(config, Next(config, s, Submit(order, caller)), after)
    requires PromptFor(config, Next(config, s, Submit(order, caller)), after, |s.orders|)
    ensures TimerAhead(Exec(config, Next(config, s, Submit(order, caller)), after), |s.orders|)
  {
    SubmittedOrder(config, s, order, caller);
    hide Exec, ValidRun, PromptFor;
    PromptRunKeepsTimerAhead(config, Next(config, s, Submit(order, caller)), after, |s.orders|);
  }

  lemma FiredMeansAnswered(s: State, o: nat)
    requires Inv(s) && o < |s.orders| && s.orders[o].run.timerFired
    ensures var agg := s.orders[o].run.agg; agg.responseSent && agg.doneCalls == 1 && agg.http.status == Some(200)
  {
    hide R.Inv, LinksPart, ReportedPart, SumsPart;
    assert RunInv(s.orders[o].run);
    AnsweredWhenOver(s.orders[o].run);
  }

  /** With a margin that is not negative, an order whose timer is prompt has its one response once the clock has
      passed the earlier of the deadline of its caller and the start plus the timeout - or has passed the
      start, if the caller's deadline was already over then. */
  lemma AnsweredByDeadline(
    config: Config, stock: map<string, int32>, before: seq<Step>, order: Order, caller: Option<int>, after: seq<Step>)
    requires config.margin >= 0 && ValidRun(config, Open(stock), before) && AcceptedOrder(order)
    requires var s := Exec(config, Open(stock), before);
             var s' := Next(config, s, Submit(order, caller));
             && ValidRun(config, s', after) && PromptFor(config, s', after, |s.orders|)
             && var deadline := if caller.None? then s.now + config.timeout
                                else Min(caller.value, s.now + config.timeout);
             Max(s.now, deadline) < Exec(config, s', after).now
    ensures var s := Exec(config, Open(stock), before);
            var s', o := Exec(config, Next(config, s, Submit(order, caller)), after), |s.orders|;
            && o < |s'.orders| && s'.orders[o].run.order == order
            && s'.orders[o].run.agg.responseSent && s'.orders[o].run.agg.doneCalls == 1
            && s'.orders[o].run.agg.http.status == Some(200)
  {
    hide Inv;
    var s := Exec(config, Open(stock), before);
    ReachableStateIsSound(config, stock, before);
    hide Next, Exec, ValidRun, PromptFor;
    SubmittedThen(config, s, order, caller, after);
    SubmittedStaysAhead(config, s, order, caller, after);
    FiredMeansAnswered(Exec(config, Next(config, s, Submit(order, caller)), after), |s.orders|);
  }

  // ---------- Not timed out early ----------

  /** The timer of order `o` is not armed for a time before the margin ahead of the deadline, and has only fired
      if it was armed and its time has come. */
  predicate TimerHonest(config: Config, s: State, o: nat) {
    && o < |s.orders|
    && var run := s.orders[o].run;
    && (run.fireAt.Some? ==> run.deadline - config.margin <= run.fireAt.value)
    && (run.timerFired ==> run.fireAt.Some? && run.fireAt.value <= s.now)
  }

  lemma StepKeepsTimerHonest(config: Config, s: State, step: Step, o: nat)
    requires TimerHonest(config, s, o) && Enabled(s, step)
    ensures TimerHonest(config, Next(config, s, step), o)
  {
    hide Deliver, EndRequest, Begin, R.Enabled, R.Next;
  }

  lemma {:induction false} RunKeepsTimerHonest(config: Config, s: State, steps: seq<Step>, o: nat)
    requires ValidRun(config, s, steps) && TimerHonest(config, s, o)
    ensures TimerHonest(config, Exec(config, s, steps), o)
    decreases |steps|
  {
    if steps != [] {
      StepKeepsTimerHonest(config, s, steps[0], o);
      hide TimerHonest, Enabled, Next;
      RunKeepsTimerHonest(config, Next(config, s, steps[0]), steps[1..], o);
    }
  }

  lemma SubmittedStaysHonest(config: Config, s: State, order: Order, caller: Option<int>, after: seq<Step>)
    requires AcceptedOrder(order) && ValidRun(config, Next(config, s, Submit(order, caller)), after)
    ensures TimerHonest(config, Exec(config, Next(config, s, Submit(order, caller)), after), |s.orders|)
  {
    SubmittedOrder(config, s, order, caller);
    hide Exec, ValidRun;
    RunKeepsTimerHonest(config, Next(config, s, Submit(order, caller)), after, |s.orders|);
  }

  lemma TimedOutMeansFired(s: State, o: nat)
    requires Inv(s) && o < |s.orders|
    requires var agg := s.orders[o].run.agg; agg.http.body.Json? && agg.http.body.response.status.TimedOut?
    ensures s.orders[o].run.timerFired
  {
    hide R.Inv, LinksPart, ReportedPart, SumsPart;
    assert RunInv(s.orders[o].run);
  }

  /** No order is told TIMED_OUT before the margin ahead of its deadline, which is the earlier of its caller's and
      the start plus the timeout. */
  lemma NeverTimedOutEarly(
    config: Config, stock: map<string, int32>, before: seq<Step>, order: Order, caller: Option<int>, after: seq<Step>)
    requires ValidRun(config, Open(stock), before) && AcceptedOrder(order)
    requires var s := Exec(config, Open(stock), before);
             var s1, o := Next(config, s, Submit(order, caller)), |s.orders|;
             && ValidRun(config, s1, after)
             && o < |Exec(config, s1, after).orders|
             && var agg := Exec(config, s1, after).orders[o].run.agg;
             agg.http.body.Json? && agg.http.body.response.status.TimedOut?
    ensures var s := Exec(config, Open(stock), before);
            var s' := Exec(config, Next(config, s, Submit(order, caller)), after);
            var deadline := if caller.None? then s.now + config.timeout
                            else Min(caller.value, s.now + config.timeout);
            s'.orders[|s.orders|].run.timerFired && deadline - config.margin <= s'.now
  {
    hide Inv;
    var s := Exec(config, Open(stock), before);
    ReachableStateIsSound(config, stock, before);
    hide Next, Exec, ValidRun;
    SubmittedThen(config, s, order, caller, after);
    SubmittedStaysHonest(config, s, order, caller, after);
    TimedOutMeansFired(Exec(config, Next(config, s, Submit(order, caller)), after), |s.orders|);
  }
}
