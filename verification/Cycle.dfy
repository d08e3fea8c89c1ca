/**
 The feedback cycle of the analytics service: merge, advance, split, complete and continue, and the
 link that leads continued events back to the merge
 (analyticsservice/internal/app/streams.generated.cpp and functions/cycleanalytics). Any number of
 events are in flight at once, and any of them may move next.
 */
module Cycle {
  import opened Types

  /** The counter is a plain int here; CountersNeverOverflowIff says when it fits in 64 bits. */
  datatype Event = Event(key: string, value: int, kind: string)

  datatype Node = Input | Merge | Advance | Split | Complete | Continue | Link | Sink

  // ---------- The wiring ----------

  function Consumers(node: Node): seq<Node> {
    match node
    case Input => [Merge]
    case Merge => [Advance]
    case Advance => [Split]
    case Split => [Complete, Continue]
    case Complete => [Sink]
    case Continue => [Link]
    case Link => [Merge]
    case Sink => []
  }

  class Graph {
    var edges: set<(Node, Node)>

    constructor ()
      ensures edges == {}
    {
      edges := {};
    }

    method Connect(from: Node, to: Node)
      modifies this
      ensures edges == old(edges) + {(from, to)}
    {
      edges := edges + {(from, to)};
    }

    method Build()
      requires edges == {}
      modifies this
      ensures forall a, b :: (a, b) in edges <==> b in Consumers(a)
    {
      Connect(Complete, Sink);
      Connect(Split, Continue);
      Connect(Split, Complete);
      Connect(Advance, Split);
      Connect(Merge, Advance);
      Connect(Input, Merge);
      Connect(Link, Merge);
      Connect(Continue, Link);
      assert edges == {(Complete, Sink), (Split, Continue), (Split, Complete), (Advance, Split),
                       (Merge, Advance), (Input, Merge), (Link, Merge), (Continue, Link)};
    }
  }

  // ---------- The operators ----------

  /** AdvanceCycleAnalytics. Advancing an event brings it one pass closer to what it settles as. */
  method AdvanceEvent(value: Event) returns (out: Event)
    ensures out.value == value.value + 1 && out.key == value.key && out.kind == value.kind
    ensures Settled(value) == if out.value >= 3 then out else Settled(out)
  {
    var next := value;
    next := next.(value := next.value + 1);
    out := next;
  }

  function Advanced(event: Event): Event { event.(value := event.value + 1) }

  /** What a node passes on to each of its consumers. */
  function Emits(node: Node, event: Event): seq<Event> {
    match node
    case Advance => [Advanced(event)]
    case Complete => if event.value >= 3 then [event] else []
    case Continue => if event.value < 3 then [event] else []
    case Sink => []
    case _ => [event]
  }

  // ---------- The running system ----------

  /** An event on its way into `at`. */
  datatype Token = Token(at: Node, event: Event)

  datatype State = State(bag: seq<Token>, out: seq<Event>)

  datatype Choice = Arrive(event: Event) | Deliver(i: nat)

  function Successors(token: Token): seq<Token> {
    var emitted, targets := Emits(token.at, token.event), Consumers(token.at);
    if emitted == [] then [] else seq(|targets|, k requires 0 <= k < |targets| => Token(targets[k], emitted[0]))
  }

  predicate Enabled(s: State, choice: Choice) {
    choice.Deliver? ==> choice.i < |s.bag|
  }

  function Next(s: State, choice: Choice): State
    requires Enabled(s, choice)
  {
    match choice
    case Arrive(event) => s.(bag := s.bag + [Token(Input, event)])
    case Deliver(i) =>
      var token := s.bag[i];
      State(s.bag[..i] + s.bag[i + 1..] + Successors(token),
            if token.at.Sink? then s.out + [token.event] else s.out)
  }

  predicate ValidRun(s: State, choices: seq<Choice>)
    decreases |choices|
  {
    choices == [] || (Enabled(s, choices[0]) && ValidRun(Next(s, choices[0]), choices[1..]))
  }

  function Exec(s: State, choices: seq<Choice>): State
    requires ValidRun(s, choices)
    decreases |choices|
  {
    if choices == [] then s else Exec(Next(s, choices[0]), choices[1..])
  }

  const EMPTY := State([], [])

  function ArrivalOf(choice: Choice): seq<Event> {
    if choice.Arrive? then [choice.event] else []
  }

  /** The events that enter during a run. */
  function Arrivals(choices: seq<Choice>): seq<Event> {
    if choices == [] then [] else ArrivalOf(choices[0]) + Arrivals(choices[1..])
  }

  // ---------- What becomes of an event ----------

  /** The event that comes out for one that went in. */
  function Settled(event: Event): Event { event.(value := Max(3, event.value + 1)) }

  /** The event after `n` passes through the advance step. */
  function AdvancedTimes(event: Event, n: nat): Event {
    if n == 0 then event else Advanced(AdvancedTimes(event, n - 1))
  }

  /** The number of passes an event makes. */
  function Passes(event: Event): nat { if event.value >= 2 then 1 else 3 - event.value }

  /** Every pass keeps key and kind; after each but the last the event takes the continue branch alone, and
      after the last the complete branch alone, settled. */
  lemma {:induction false} AdvanceUntilSettled(event: Event, n: nat)
    requires 1 <= n <= Passes(event)
    ensures var advanced := AdvancedTimes(event, n);
            && advanced == event.(value := event.value + n)
            && (if n < Passes(event) then Emits(Continue, advanced) == [advanced] && Emits(Complete, advanced) == []
                else Emits(Complete, advanced) == [Settled(event)] && Emits(Continue, advanced) == [])
  {
    if n > 1 {
      AdvanceUntilSettled(event, n - 1);
    }
  }

  function SettledAll(events: seq<Event>): (settled: seq<Event>)
    ensures |settled| == |events|
    ensures forall k | 0 <= k < |events| :: settled[k] == Settled(events[k])
  {
    seq(|events|, k requires 0 <= k < |events| => Settled(events[k]))
  }

  /** The output that a token will still lead to. */
  function Outcome(token: Token): Option<Event> {
    match token.at
    case Split => Some(if token.event.value >= 3 then token.event else Settled(token.event))
    case Complete => if token.event.value >= 3 then Some(token.event) else None
    case Continue => if token.event.value < 3 then Some(Settled(token.event)) else None
    case Sink => Some(token.event)
    case _ => Some(Settled(token.event))
  }

  function Owes(token: Token, x: Event): nat { if Outcome(token) == Some(x) then 1 else 0 }

  /** How many outputs equal to `x` the bag will still lead to. */
  function Owed(bag: seq<Token>, x: Event): nat {
    if bag == [] then 0 else Owed(bag[..|bag| - 1], x) + Owes(bag[|bag| - 1], x)
  }

  /** How many more rounds an event with counter `v` makes before its last. */
  function Laps(v: int): nat { if v >= 2 then 0 else 2 - v }

  /** The exact number of deliveries that a token still causes. */
  function Weight(token: Token): nat {
    var v := token.event.value;
    match token.at
    case Input => 7 + 6 * Laps(v)
    case Merge => 6 + 6 * Laps(v)
    case Advance => 5 + 6 * Laps(v)
    case Split => if v >= 3 then 4 else 10 + 6 * Laps(v)
    case Complete => if v >= 3 then 2 else 1
    case Continue => if v >= 3 then 1 else 8 + 6 * Laps(v)
    case Link => 7 + 6 * Laps(v)
    case Sink => 1
  }

  function Weights(bag: seq<Token>): nat {
    if bag == [] then 0 else Weights(bag[..|bag| - 1]) + Weight(bag[|bag| - 1])
  }

  lemma {:induction false} BagSums(a: seq<Token>, b: seq<Token>, x: Event)
    ensures Owed(a + b, x) == Owed(a, x) + Owed(b, x)
    ensures Weights(a + b) == Weights(a) + Weights(b)
  {
    if b == [] {
      assert a + b == a;
    } else {
      BagSums(a, b[..|b| - 1], x);
      assert (a + b)[..|a + b| - 1] == a + b[..|b| - 1];
    }
  }

  lemma OneToken(token: Token, x: Event)
    ensures Owed([token], x) == Owes(token, x) && Weights([token]) == Weight(token)
  {
    assert [token][..0] == [];
  }

  /** Processing a token passes on what it owes, unless it leaves, and uses up exactly one delivery. */
  lemma SuccessorsKeepOwed(token: Token, x: Event)
    ensures Owed(Successors(token), x) + (if token.at.Sink? && token.event == x then 1 else 0) == Owes(token, x)
    ensures Weights(Successors(token)) + 1 == Weight(token)
  {
    var next := Successors(token);
    if |next| == 1 {
      assert next == [next[0]];
      OneToken(next[0], x);
    } else if |next| == 2 {
      assert next == [next[0]] + [next[1]];
      BagSums([next[0]], [next[1]], x);
      OneToken(next[0], x);
      OneToken(next[1], x);
    }
  }

  lemma BagWithout(bag: seq<Token>, i: nat, x: Event)
    requires i < |bag|
    ensures Owed(bag, x) == Owed(bag[..i] + bag[i + 1..], x) + Owes(bag[i], x)
    ensures Weights(bag) == Weights(bag[..i] + bag[i + 1..]) + Weight(bag[i])
  {
    hide Owed, Weights;
    assert bag == bag[..i] + ([bag[i]] + bag[i + 1..]);
    BagSums(bag[..i], [bag[i]] + bag[i + 1..], x);
    BagSums([bag[i]], bag[i + 1..], x);
    BagSums(bag[..i], bag[i + 1..], x);
    OneToken(bag[i], x);
  }

  lemma DeliveryKeepsOwed(s: State, i: nat, x: Event)
    requires i < |s.bag|
    ensures var s' := Next(s, Deliver(i));
            && multiset(s'.out)[x] + Owed(s'.bag, x) == multiset(s.out)[x] + Owed(s.bag, x)
            && Weights(s'.bag) + 1 == Weights(s.bag)
  {
    hide Owed, Weights, Owes, Weight, Successors;
    BagWithout(s.bag, i, x);
    BagSums(s.bag[..i] + s.bag[i + 1..], Successors(s.bag[i]), x);
    SuccessorsKeepOwed(s.bag[i], x);
  }

  function ArrivalWeights(events: seq<Event>): nat {
    if events == [] then 0 else Weight(Token(Input, events[0])) + ArrivalWeights(events[1..])
  }

  lemma ArrivalKeepsOwed(s: State, event: Event, x: Event)
    ensures var s' := Next(s, Arrive(event));
            && s'.out == s.out
            && Owed(s'.bag, x) == Owed(s.bag, x) + (if Settled(event) == x then 1 else 0)
            && Weights(s'.bag) == Weights(s.bag) + Weight(Token(Input, event))
  {
    BagSums(s.bag, [Token(Input, event)], x);
    OneToken(Token(Input, event), x);
  }

  lemma SettledAllOneMore(event: Event, events: seq<Event>, x: Event)
    ensures multiset(SettledAll([event] + events))[x]
            == multiset(SettledAll(events))[x] + (if Settled(event) == x then 1 else 0)
    ensures ArrivalWeights([event] + events) == Weight(Token(Input, event)) + ArrivalWeights(events)
  {
    hide SettledAll, Settled, Weight;
    var all := [event] + events;
    assert all[0] == event && all[1..] == events;
    forall k | 0 <= k < |events|
      ensures SettledAll(all)[1..][k] == SettledAll(events)[k]
    {
      assert all[k + 1] == events[k];
    }
    assert SettledAll(all)[1..] == SettledAll(events);
    assert SettledAll(all) == [Settled(event)] + SettledAll(all)[1..];
  }

  /** Along every run: nothing is lost or invented, and each delivery uses up one unit of weight. */
  lemma {:induction false} RunKeepsOwed(s: State, choices: seq<Choice>, x: Event)
    requires ValidRun(s, choices)
    ensures var s', events := Exec(s, choices), Arrivals(choices);
            && multiset(s'.out)[x] + Owed(s'.bag, x)
               == multiset(s.out)[x] + Owed(s.bag, x) + multiset(SettledAll(events))[x]
            && Weights(s'.bag) + (|choices| - |events|) == Weights(s.bag) + ArrivalWeights(events)
    decreases |choices|
  {
    hide Owed, Weights, Weight, Next, Settled, SettledAll, ArrivalWeights;
    if choices == [] {
      assert multiset(SettledAll([]))[x] == 0 && ArrivalWeights([]) == 0 by { NothingArrived(x); }
    } else {
      var later := Arrivals(choices[1..]);
      RunKeepsOwed(Next(s, choices[0]), choices[1..], x);
      match choices[0] {
        case Arrive(event) =>
          assert Arrivals(choices) == [event] + later;
          ArrivalKeepsOwed(s, event, x);
          SettledAllOneMore(event, later, x);
        case Deliver(i) =>
          assert Arrivals(choices) == later;
          DeliveryKeepsOwed(s, i, x);
      }
    }
  }

  lemma NothingArrived(x: Event)
    ensures multiset(SettledAll([]))[x] == 0 && ArrivalWeights([]) == 0
  {
  }

  // ---------- Main results ----------

  lemma NothingInFlight(bag: seq<Token>)
    ensures bag == [] <==> Weights(bag) == 0
  {
    if bag != [] {
      assert Weight(bag[|bag| - 1]) > 0;
    }
  }

  /** No schedule runs forever: the number of deliveries in any run is bounded by its arrivals alone,
      and the bound is reached exactly when nothing is in flight any more. */
  lemma EveryScheduleTerminates(choices: seq<Choice>)
    requires ValidRun(EMPTY, choices)
    ensures |choices| - |Arrivals(choices)| <= ArrivalWeights(Arrivals(choices))
    ensures Exec(EMPTY, choices).bag == [] <==> |choices| - |Arrivals(choices)| == ArrivalWeights(Arrivals(choices))
  {
    RunKeepsOwed(EMPTY, choices, Event("", 0, ""));
    NothingInFlight(Exec(EMPTY, choices).bag);
  }

  /** When nothing is in flight any more, each input has produced exactly one output: the same event with
      its counter at max(3, value + 1). So the output does not depend on the schedule. */
  lemma OutputIsScheduleIndependent(choices: seq<Choice>)
    requires ValidRun(EMPTY, choices) && Exec(EMPTY, choices).bag == []
    ensures multiset(Exec(EMPTY, choices).out) == multiset(SettledAll(Arrivals(choices)))
  {
    var out, settled := multiset(Exec(EMPTY, choices).out), multiset(SettledAll(Arrivals(choices)));
    forall x: Event
      ensures out[x] == settled[x]
    {
      RunKeepsOwed(EMPTY, choices, x);
    }
  }

  /** Whatever is in flight can be delivered until nothing is left. */
  lemma {:induction false} RunToRest(s: State) returns (choices: seq<Choice>)
    ensures ValidRun(s, choices) && Arrivals(choices) == [] && Exec(s, choices).bag == []
    decreases Weights(s.bag)
  {
    if s.bag == [] {
      choices := [];
    } else {
      DeliveryKeepsOwed(s, 0, Event("", 0, ""));
      hide Next, Weights;
      var rest := RunToRest(Next(s, Deliver(0)));
      choices := [Deliver(0)] + rest;
      assert choices[1..] == rest;
    }
  }

  /** So every bag of inputs has a completed run. */
  lemma EveryInputHasCompletedRun(events: seq<Event>) returns (choices: seq<Choice>)
    ensures ValidRun(EMPTY, choices) && Arrivals(choices) == events && Exec(EMPTY, choices).bag == []
  {
    var arriving := ArrivingRun(EMPTY, events);
    hide Exec, ValidRun, Arrivals;
    var rest := RunToRest(Exec(EMPTY, arriving));
    RunsCompose(EMPTY, arriving, rest);
    ArrivalsCompose(arriving, rest);
    assert events + [] == events;
    choices := arriving + rest;
  }

  lemma SettledAllWithout(events: seq<Event>, j: nat)
    requires j < |events|
    ensures multiset(SettledAll(events)) == multiset(SettledAll(Without(events, j))) + multiset{Settled(events[j])}
  {
    MultisetWithout(SettledAll(events), j);
    assert Without(SettledAll(events), j) == SettledAll(Without(events, j));
  }

  lemma {:induction false} ArrivalWeightsWithout(events: seq<Event>, j: nat)
    requires j < |events|
    ensures ArrivalWeights(events) == ArrivalWeights(Without(events, j)) + Weight(Token(Input, events[j]))
  {
    if j == 0 {
      assert Without(events, 0) == events[1..];
    } else {
      ArrivalWeightsWithout(events[1..], j - 1);
      assert Without(events, j)[1..] == Without(events[1..], j - 1);
    }
  }

  lemma {:induction false} PermutedInputs(a: seq<Event>, b: seq<Event>)
    requires multiset(a) == multiset(b)
    ensures multiset(SettledAll(a)) == multiset(SettledAll(b)) && ArrivalWeights(a) == ArrivalWeights(b)
    decreases |a|
  {
    if a == [] {
      assert |multiset(b)| == 0;
    } else {
      hide ArrivalWeights, SettledAll, Weight, Without;
      assert a[0] in multiset(b);
      var j :| 0 <= j < |b| && b[j] == a[0];
      MultisetWithout(a, 0);
      MultisetWithout(b, j);
      assert |multiset(Without(a, 0))| < |multiset(a)|;
      PermutedInputs(Without(a, 0), Without(b, j));
      SettledAllWithout(a, 0);
      SettledAllWithout(b, j);
      ArrivalWeightsWithout(a, 0);
      ArrivalWeightsWithout(b, j);
    }
  }

  /** Two completed runs over the same bag of inputs, however they are scheduled and whenever the inputs
      arrive, give the same bag of outputs in the same number of steps. */
  lemma Confluence(a: seq<Choice>, b: seq<Choice>)
    requires ValidRun(EMPTY, a) && ValidRun(EMPTY, b)
    requires multiset(Arrivals(a)) == multiset(Arrivals(b))
    requires Exec(EMPTY, a).bag == [] && Exec(EMPTY, b).bag == []
    ensures multiset(Exec(EMPTY, a).out) == multiset(Exec(EMPTY, b).out) && |a| == |b|
  {
    OutputIsScheduleIndependent(a);
    OutputIsScheduleIndependent(b);
    PermutedInputs(Arrivals(a), Arrivals(b));
    EveryScheduleTerminates(a);
    EveryScheduleTerminates(b);
    assert |multiset(Arrivals(a))| == |multiset(Arrivals(b))|;
  }

  // ---------- Overflow ----------

  /** The next delivery would increment the largest 64-bit counter. */
  predicate Overflowing(s: State) {
    exists k :: 0 <= k < |s.bag| && s.bag[k].at.Advance? && s.bag[k].event.value + 1 > INT64_MAX
  }

  /** Counters that are still to be incremented are below the maximum. */
  predicate Bounded(token: Token) {
    token.event.value < INT64_MAX || token.at.Split? || token.at.Complete? || token.at.Continue? || token.at.Sink?
  }

  predicate AllBounded(bag: seq<Token>) {
    forall k | 0 <= k < |bag| :: Bounded(bag[k])
  }

  lemma StepStaysBounded(s: State, choice: Choice)
    requires Enabled(s, choice) && AllBounded(s.bag)
    requires choice.Arrive? ==> choice.event.value < INT64_MAX
    ensures AllBounded(Next(s, choice).bag)
  {
    if choice.Deliver? {
      assert Bounded(s.bag[choice.i]);
      assert AllBounded(Successors(s.bag[choice.i]));
    }
  }

  lemma {:induction false} RunStaysBounded(s: State, choices: seq<Choice>)
    requires ValidRun(s, choices) && AllBounded(s.bag)
    requires forall k | 0 <= k < |Arrivals(choices)| :: Arrivals(choices)[k].value < INT64_MAX
    ensures AllBounded(Exec(s, choices).bag)
    decreases |choices|
  {
    if choices != [] {
      var events, later := ArrivalOf(choices[0]), Arrivals(choices[1..]);
      assert Arrivals(choices) == events + later;
      hide Next, Enabled, AllBounded, Arrivals, Exec;
      assert forall k | 0 <= k < |events| :: (events + later)[k] == events[k];
      assert forall k | 0 <= k < |later| :: (events + later)[|events| + k] == later[k];
      assert choices[0].Arrive? ==> events[0] == choices[0].event;
      StepStaysBounded(s, choices[0]);
      RunStaysBounded(Next(s, choices[0]), choices[1..]);
    }
  }

  /** For events with 64-bit counters, some schedule overflows exactly when some input is at the maximum. */
  lemma CountersNeverOverflowIff(events: seq<Event>)
    requires forall k | 0 <= k < |events| :: events[k].value <= 0x7fff_ffff_ffff_ffff
    ensures (exists choices ::
               ValidRun(EMPTY, choices) && Arrivals(choices) == events && Overflowing(Exec(EMPTY, choices)))
            <==> exists k :: 0 <= k < |events| && events[k].value == 0x7fff_ffff_ffff_ffff
  {
    if exists choices :: ValidRun(EMPTY, choices) && Arrivals(choices) == events && Overflowing(Exec(EMPTY, choices)) {
      var choices :| ValidRun(EMPTY, choices) && Arrivals(choices) == events && Overflowing(Exec(EMPTY, choices));
      if forall k | 0 <= k < |events| :: events[k].value < INT64_MAX {
        RunStaysBounded(EMPTY, choices);
        assert false;
      }
    }
    if exists k :: 0 <= k < |events| && events[k].value == INT64_MAX {
      var k :| 0 <= k < |events| && events[k].value == INT64_MAX;
      var choices := OverflowingRun(events, k);
    }
  }

  /** Let all inputs arrive, then take the k-th of them to the advance step. */
  lemma OverflowingRun(events: seq<Event>, k: nat) returns (choices: seq<Choice>)
    requires k < |events| && events[k].value == INT64_MAX
    ensures ValidRun(EMPTY, choices) && Arrivals(choices) == events && Overflowing(Exec(EMPTY, choices))
  {
    var arriving := ArrivingRun(EMPTY, events);
    var s := Exec(EMPTY, arriving);
    assert s.bag[k] == Token(Input, events[k]);
    var last := TakeToAdvance(s, k);
    RunsCompose(EMPTY, arriving, last);
    ArrivalsCompose(arriving, last);
    assert events + [] == events;
    choices := arriving + last;
  }

  lemma TakeToAdvance(s: State, k: nat) returns (choices: seq<Choice>)
    requires k < |s.bag| && s.bag[k].at.Input? && s.bag[k].event.value == INT64_MAX
    ensures ValidRun(s, choices) && Arrivals(choices) == [] && Overflowing(Exec(s, choices))
  {
    var event, end := s.bag[k].event, |s.bag| - 1;
    assert Successors(s.bag[k]) == [Token(Merge, event)];
    var s1 := Next(s, Deliver(k));
    assert s1.bag[end] == Token(Merge, event);
    assert Successors(s1.bag[end]) == [Token(Advance, event)];
    var s2 := Next(s1, Deliver(end));
    assert s2.bag[end] == Token(Advance, event);
    choices := [Deliver(k), Deliver(end)];
    assert choices[1..] == [Deliver(end)];
    assert ValidRun(s2, []) && Exec(s2, []) == s2;
    assert ValidRun(s1, [Deliver(end)]) && Exec(s1, [Deliver(end)]) == s2;
    assert Arrivals([Deliver(end)]) == [];
  }

  function InputTokens(events: seq<Event>): (tokens: seq<Token>)
    ensures |tokens| == |events|
    ensures forall k | 0 <= k < |events| :: tokens[k] == Token(Input, events[k])
  {
    seq(|events|, k requires 0 <= k < |events| => Token(Input, events[k]))
  }

  lemma {:induction false} ArrivingRun(s: State, events: seq<Event>) returns (choices: seq<Choice>)
    ensures ValidRun(s, choices) && Arrivals(choices) == events
    ensures Exec(s, choices).bag == s.bag + InputTokens(events)
    decreases |events|
  {
    hide Successors, InputTokens;
    if events == [] {
      choices := [];
    } else {
      var first := Arrive(events[0]);
      var rest := ArrivingRun(Next(s, first), events[1..]);
      choices := [first] + rest;
      assert choices[0] == first && choices[1..] == rest;
      assert InputTokens(events) == [Token(Input, events[0])] + InputTokens(events[1..]);
    }
  }

  lemma {:induction false} RunsCompose(s: State, choices: seq<Choice>, more: seq<Choice>)
    requires ValidRun(s, choices) && ValidRun(Exec(s, choices), more)
    ensures ValidRun(s, choices + more) && Exec(s, choices + more) == Exec(Exec(s, choices), more)
    decreases |choices|
  {
    if choices == [] {
      assert choices + more == more;
    } else {
      hide Next;
      assert (choices + more)[1..] == choices[1..] + more;
      RunsCompose(Next(s, choices[0]), choices[1..], more);
    }
  }

  lemma {:induction false} ArrivalsCompose(choices: seq<Choice>, more: seq<Choice>)
    ensures Arrivals(choices + more) == Arrivals(choices) + Arrivals(more)
  {
    if choices == [] {
      assert choices + more == more;
    } else {
      assert (choices + more)[0] == choices[0] && (choices + more)[1..] == choices[1..] + more;
      hide ArrivalOf;
      ArrivalsCompose(choices[1..], more);
    }
  }
}
