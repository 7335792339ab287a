/** The session handle that turns an async generator into an event stream plus a `result()`, under every interleaving
    of calls to either: the closure variables are shared, and control can pass to another call at every await. */
module SessionHandle {
  import opened Wrappers

  type Event = string
  type Answer = string

  /** What the generator will do: yield these events, then return or throw. */
  datatype Ending = Returns(answer: Answer) | Throws
  datatype Script = Script(events: seq<Event>, ending: Ending)

  /** Who called `pump`: a consumer of the event stream, or a run of `drainFully`. */
  datatype Owner = Consumer | Drain(d: nat)

  /** Where a run of `drainFully` stands: awaiting `generator.next()`, about to pump again, or settled. */
  datatype DrainState = Pumping | Ready | Resolved | Rejected

  datatype Outcome = Pending | Returned(answer: Answer) | Threw

  /** A call of `result()`: the draining promise it awaits, and how it ended. */
  datatype Waiter = Waiter(on: nat, outcome: Outcome)

  /** The handle's four closure variables; the generator's own position; every `next()` it has not yet answered; the
      draining promises and `result()` calls so far; and every event handed over, with who received it. */
  datatype State = State(
    generatorDone: bool,
    finalResult: Option<Answer>,
    pumpInFlight: bool,
    draining: Option<nat>,
    position: nat,
    finished: bool,
    unanswered: seq<Owner>,
    drains: seq<DrainState>,
    waiters: seq<Waiter>,
    delivered: seq<(Owner, Event)>)

  const Fresh := State(false, None, false, None, 0, false, [], [], [], [])

  // ----- pump, up to its await -----

  /** How the synchronous part of `pump` ends. */
  datatype Pumped = AlreadyDone | Refused | Awaiting

  function PumpResult(s: State): Pumped {
    if s.generatorDone then AlreadyDone else if s.pumpInFlight then Refused else Awaiting
  }

  function Pump(s: State, owner: Owner): State {
    if PumpResult(s).Awaiting? then s.(pumpInFlight := true, unanswered := s.unanswered + [owner]) else s
  }

  function DrainAfter(p: Pumped): DrainState {
    match p
    case AlreadyDone => Resolved
    case Refused => Rejected
    case Awaiting => Pumping
  }

  // ----- The steps -----

  /** `events.next()` is called. */
  function NextCalled(s: State): State {
    Pump(s, Consumer)
  }

  /** `result()` is called: it starts draining unless a draining promise is already stored, and awaits it. */
  function ResultCalled(s: State): State {
    var s' :=
      if s.draining.Some? then s
      else
        var d := |s.drains|;
        Pump(s, Drain(d)).(drains := s.drains + [DrainAfter(PumpResult(s))], draining := Some(d));
    s'.(waiters := s.waiters + [Waiter(s'.draining.value, Pending)])
  }

  function SetDrain(s: State, owner: Owner, to: DrainState): State {
    if owner.Drain? && owner.d < |s.drains| then s.(drains := s.drains[owner.d := to]) else s
  }

  /** The generator answers its oldest unanswered `next()`, and the awaiting `pump` continues to its end. */
  function Answered(script: Script, s: State): State
    requires s.unanswered != []
  {
    var owner := s.unanswered[0];
    var s0 := s.(unanswered := s.unanswered[1..], pumpInFlight := false);
    if !s.finished && s.position < |script.events| then
      SetDrain(s0, owner, Ready).(
        position := s.position + 1, delivered := s.delivered + [(owner, script.events[s.position])])
    else if !s.finished && script.ending.Throws? then
      SetDrain(s0, owner, Rejected).(finished := true)
    else
      SetDrain(s0, owner, Resolved).(
        finished := true, generatorDone := true,
        finalResult := if s.finished then None else Some(script.ending.answer))
  }

  /** `drainFully` got an event and pumps again. */
  function DrainContinues(s: State, d: nat): State
    requires d < |s.drains|
  {
    Pump(s, Drain(d)).(drains := s.drains[d := DrainAfter(PumpResult(s))])
  }

  /** A `result()` call wakes once the promise it awaits has settled; after a rejection it forgets the stored
      promise. */
  function WaiterWakes(s: State, w: nat): State
    requires w < |s.waiters| && s.waiters[w].on < |s.drains|
  {
    if s.drains[s.waiters[w].on].Rejected? then
      s.(draining := None, waiters := s.waiters[w := s.waiters[w].(outcome := Threw)])
    else
      s.(waiters := s.waiters[w := s.waiters[w].(
           outcome := if s.finalResult.None? then Threw else Returned(s.finalResult.value))])
  }

  datatype Label = CallNext | CallResult | Answer | Continue(d: nat) | Wake(w: nat)

  predicate Internal(l: Label) {
    l.Answer? || l.Continue? || l.Wake?
  }

  predicate Settled(d: DrainState) {
    d.Resolved? || d.Rejected?
  }

  predicate Enabled(s: State, l: Label) {
    match l
    case CallNext => true
    case CallResult => true
    case Answer => s.unanswered != []
    case Continue(d) => d < |s.drains| && s.drains[d].Ready?
    case Wake(w) =>
      && w < |s.waiters| && s.waiters[w].outcome.Pending?
      && s.waiters[w].on < |s.drains| && Settled(s.drains[s.waiters[w].on])
  }

  function After(script: Script, s: State, l: Label): State
    requires Enabled(s, l)
  {
    match l
    case CallNext => NextCalled(s)
    case CallResult => ResultCalled(s)
    case Answer => Answered(script, s)
    case Continue(d) => DrainContinues(s, d)
    case Wake(w) => WaiterWakes(s, w)
  }

  /** `t` is reached from `s` by these steps. */
  ghost predicate Reaches(script: Script, s: State, labels: seq<Label>, t: State)
    decreases |labels|
  {
    if labels == [] then s == t
    else Enabled(s, labels[0]) && Reaches(script, After(script, s, labels[0]), labels[1..], t)
  }

  // ----- The invariant -----

  ghost predicate GeneratorInv(script: Script, s: State) {
    && |s.unanswered| <= 1 && (s.pumpInFlight <==> |s.unanswered| == 1)
    && s.position <= |script.events| && |s.delivered| == s.position
    && (forall k | 0 <= k < s.position :: s.delivered[k].1 == script.events[k])
    && (s.finished ==> s.position == |script.events|)
    && (s.generatorDone ==> s.finished && s.unanswered == [])
    && (script.ending.Returns? ==> s.generatorDone == s.finished)
    && s.finalResult == (if s.generatorDone && script.ending.Returns? then Some(script.ending.answer) else None)
  }

  ghost predicate DrainInv(s: State) {
    && (forall d | 0 <= d < |s.drains| :: s.drains[d].Pumping? <==> Drain(d) in s.unanswered)
    && (forall d | 0 <= d < |s.drains| && s.drains[d].Resolved? :: s.generatorDone)
    && (forall o | o in s.unanswered && o.Drain? :: o.d < |s.drains|)
  }

  ghost predicate Awaited(s: State, d: nat) {
    exists w :: 0 <= w < |s.waiters| && s.waiters[w] == Waiter(d, Pending)
  }

  /** A stored promise that has not resolved still has a `result()` call waiting on it; if it rejected, that call will
      forget it. */
  ghost predicate WaiterInv(script: Script, s: State) {
    && (forall w | 0 <= w < |s.waiters| :: s.waiters[w].on < |s.drains|)
    && (forall w | 0 <= w < |s.waiters| && s.waiters[w].outcome.Returned? ::
          script.ending == Returns(s.waiters[w].outcome.answer))
    && (s.draining.Some? ==> s.draining.value < |s.drains| &&
                             (s.drains[s.draining.value].Resolved? || Awaited(s, s.draining.value)))
  }

  ghost predicate Inv(script: Script, s: State) {
    GeneratorInv(script, s) && DrainInv(s) && WaiterInv(script, s)
  }

  lemma StepKeepsGenerator(script: Script, s: State, l: Label)
    requires GeneratorInv(script, s) && Enabled(s, l)
    ensures GeneratorInv(script, After(script, s, l))
  {
  }

  lemma StepKeepsDrains(script: Script, s: State, l: Label)
    requires GeneratorInv(script, s) && DrainInv(s) && Enabled(s, l)
    ensures DrainInv(After(script, s, l))
  {
    if l.Answer? {
      AnswerKeepsDrains(script, s);
    } else if !l.Wake? {
      PumpKeepsDrains(script, s, l);
    }
  }

  lemma AnswerKeepsDrains(script: Script, s: State)
    requires GeneratorInv(script, s) && DrainInv(s) && s.unanswered != []
    ensures DrainInv(Answered(script, s))
  {
    var owner, s' := s.unanswered[0], Answered(script, s);
    assert s.unanswered == [owner] && s'.unanswered == [];
    forall d | 0 <= d < |s.drains|
      ensures !s'.drains[d].Pumping? && (s'.drains[d].Resolved? ==> s'.generatorDone)
    {
      if owner != Drain(d) {
        assert s'.drains[d] == s.drains[d] && Drain(d) !in s.unanswered;
      }
    }
  }

  lemma PumpKeepsDrains(script: Script, s: State, l: Label)
    requires GeneratorInv(script, s) && DrainInv(s) && Enabled(s, l)
    requires l.CallNext? || l.CallResult? || l.Continue?
    ensures DrainInv(After(script, s, l))
  {
  }

  /** Only its own waking ends a wait, and what it then returns is the generator's answer. */
  lemma StepKeepsOutcomes(script: Script, s: State, l: Label)
    requires Inv(script, s) && Enabled(s, l)
    ensures var s' := After(script, s, l);
      && (forall w | 0 <= w < |s'.waiters| :: s'.waiters[w].on < |s'.drains|)
      && (forall w | 0 <= w < |s'.waiters| && s'.waiters[w].outcome.Returned? ::
            script.ending == Returns(s'.waiters[w].outcome.answer))
  {
  }

  lemma StillAwaited(script: Script, s: State, l: Label, d: nat)
    requires Enabled(s, l) && Awaited(s, d)
    requires l.Wake? ==> s.waiters[l.w].on != d
    ensures Awaited(After(script, s, l), d)
  {
    var w :| 0 <= w < |s.waiters| && s.waiters[w] == Waiter(d, Pending);
    assert After(script, s, l).waiters[w] == Waiter(d, Pending);
  }

  /** The stored promise changes only when `result()` finds none and when a rejection is noticed; a resolved drain stays
      resolved. */
  lemma DrainingChanges(script: Script, s: State, l: Label)
    requires Inv(script, s) && Enabled(s, l)
    ensures var s' := After(script, s, l);
      && (s'.draining.Some? && s'.draining != s.draining ==>
            l.CallResult? && s'.draining.value < |s'.drains| && Awaited(s', s'.draining.value))
      && |s.drains| <= |s'.drains|
      && (forall d | 0 <= d < |s.drains| && s.drains[d].Resolved? :: s'.drains[d].Resolved?)
  {
    var s' := After(script, s, l);
    if l.CallResult? {
      assert s'.waiters[|s.waiters|] == Waiter(s'.draining.value, Pending);
    }
  }

  lemma StepKeepsStored(script: Script, s: State, l: Label)
    requires Inv(script, s) && Enabled(s, l)
    ensures var s' := After(script, s, l);
      s'.draining.Some? ==> s'.draining.value < |s'.drains| &&
                            (s'.drains[s'.draining.value].Resolved? || Awaited(s', s'.draining.value))
  {
    DrainingChanges(script, s, l);
    if s.draining.Some? && !s.drains[s.draining.value].Resolved? {
      if !l.Wake? || s.waiters[l.w].on != s.draining.value {
        StillAwaited(script, s, l, s.draining.value);
      }
    }
  }

  lemma StepKeepsInv(script: Script, s: State, l: Label)
    requires Inv(script, s) && Enabled(s, l)
    ensures Inv(script, After(script, s, l))
  {
    hide GeneratorInv, DrainInv, Enabled, After;
    StepKeepsGenerator(script, s, l);
    StepKeepsDrains(script, s, l);
    StepKeepsOutcomes(script, s, l);
    StepKeepsStored(script, s, l);
  }

  lemma {:induction false} RunKeepsInv(script: Script, s: State, labels: seq<Label>, t: State)
    requires Inv(script, s) && Reaches(script, s, labels, t)
    ensures Inv(script, t)
    decreases |labels|
  {
    if labels != [] {
      StepKeepsInv(script, s, labels[0]);
      RunKeepsInv(script, After(script, s, labels[0]), labels[1..], t);
    }
  }

  // ----- Every interleaving -----

  /** However calls to `events.next()` and `result()` interleave: the generator never has two `next()` in flight, its
      events are handed over once each and in order, and every `result()` that returns returns the generator's own
      answer. */
  lemma EventsOnceInOrder(script: Script, labels: seq<Label>, t: State)
    requires Reaches(script, Fresh, labels, t)
    ensures |t.unanswered| <= 1
    ensures |t.delivered| == t.position <= |script.events|
    ensures forall k | 0 <= k < |t.delivered| :: t.delivered[k].1 == script.events[k]
    ensures forall w | 0 <= w < |t.waiters| && t.waiters[w].outcome.Returned? ::
              script.ending == Returns(t.waiters[w].outcome.answer) && |t.delivered| == |script.events|
  {
    RunKeepsInv(script, Fresh, labels, t);
    forall w | 0 <= w < |t.waiters| && t.waiters[w].outcome.Returned?
      ensures t.finished
    {
      ReturnedMeansFinished(script, Fresh, labels, t, w);
    }
  }

  /** The call at this step that gets to ask the generator: none once it is done or while another is unanswered. */
  ghost function Asks(s: State, l: Label): seq<Owner> {
    if s.generatorDone || s.pumpInFlight then []
    else
      match l
      case CallNext => [Consumer]
      case CallResult => if s.draining.None? then [Drain(|s.drains|)] else []
      case Continue(d) => [Drain(d)]
      case _ => []
  }

  ghost function AllAsks(script: Script, s: State, labels: seq<Label>): seq<Owner>
    decreases |labels|
  {
    if labels == [] || !Enabled(s, labels[0]) then []
    else Asks(s, labels[0]) + AllAsks(script, After(script, s, labels[0]), labels[1..])
  }

  ghost function Receivers(delivered: seq<(Owner, Event)>): seq<Owner> {
    seq(|delivered|, k requires 0 <= k < |delivered| => delivered[k].0)
  }

  /** The k-th event goes to the k-th call that got to ask for one. Calls that asked after the generator had run out
      come next, and then the one still waiting. */
  lemma EventsGoToAskers(script: Script, labels: seq<Label>, t: State) returns (ends: seq<Owner>)
    requires Reaches(script, Fresh, labels, t)
    ensures AllAsks(script, Fresh, labels) == Receivers(t.delivered) + ends + t.unanswered
    ensures ends != [] ==> t.finished
  {
    ends := AskersFrom(script, Fresh, labels, t, [], []);
    assert [] + AllAsks(script, Fresh, labels) == AllAsks(script, Fresh, labels);
  }

  lemma {:induction false} AskersFrom(
    script: Script, s: State, labels: seq<Label>, t: State, asked: seq<Owner>, ends: seq<Owner>)
    returns (ends': seq<Owner>)
    requires GeneratorInv(script, s) && Reaches(script, s, labels, t)
    requires asked == Receivers(s.delivered) + ends + s.unanswered && (ends != [] ==> s.finished)
    ensures asked + AllAsks(script, s, labels) == Receivers(t.delivered) + ends' + t.unanswered
    ensures ends' != [] ==> t.finished
    decreases |labels|
  {
    if labels == [] {
      ends' := ends;
      assert asked + [] == asked;
    } else {
      hide *;
      FirstAsk(script, s, labels, t);
      var next := After(script, s, labels[0]);
      var ends1 := AskersStep(script, s, labels[0], asked, ends);
      StepKeepsGenerator(script, s, labels[0]);
      ends' := AskersFrom(script, next, labels[1..], t, asked + Asks(s, labels[0]), ends1);
      Regroup(asked, Asks(s, labels[0]), AllAsks(script, next, labels[1..]));
    }
  }

  lemma FirstAsk(script: Script, s: State, labels: seq<Label>, t: State)
    requires labels != [] && Reaches(script, s, labels, t)
    ensures Enabled(s, labels[0])
    ensures var next := After(script, s, labels[0]);
      && Reaches(script, next, labels[1..], t)
      && AllAsks(script, s, labels) == Asks(s, labels[0]) + AllAsks(script, next, labels[1..])
  {
    hide Enabled, After, Asks;
  }

  lemma Regroup(a: seq<Owner>, b: seq<Owner>, c: seq<Owner>)
    ensures a + (b + c) == a + b + c
  {
  }

  lemma AskersStep(script: Script, s: State, l: Label, asked: seq<Owner>, ends: seq<Owner>)
    returns (ends': seq<Owner>)
    requires GeneratorInv(script, s) && Enabled(s, l)
    requires asked == Receivers(s.delivered) + ends + s.unanswered && (ends != [] ==> s.finished)
    ensures var next := After(script, s, l);
      asked + Asks(s, l) == Receivers(next.delivered) + ends' + next.unanswered && (ends' != [] ==> next.finished)
  {
    var next := After(script, s, l);
    if l.Answer? {
      assert s.unanswered == [s.unanswered[0]] && next.unanswered == [];
      if next.delivered != s.delivered {
        assert ends == [];
        assert Receivers(next.delivered) == Receivers(s.delivered) + s.unanswered;
        ends' := [];
      } else {
        ends' := ends + s.unanswered;
      }
    } else {
      assert next.delivered == s.delivered && next.unanswered == s.unanswered + Asks(s, l);
      ends' := ends;
    }
  }

  /** A consumer's `next()` changes nothing once the generator is done, or while another call is unanswered, when it is
      refused. Otherwise the generator's answer to it is the next event, handed to the consumer; or, when there are no
      more, completion with the generator's answer; or the generator's failure, after which the handle is not complete;
      or, after such a failure, completion without an answer. */
  lemma NextExactly(script: Script, s: State)
    requires Inv(script, s)
    ensures s.generatorDone || s.pumpInFlight ==> After(script, s, CallNext) == s
    ensures !s.generatorDone && !s.pumpInFlight ==>
      var asked := After(script, s, CallNext);
      && asked.unanswered == [Consumer]
      && var t := After(script, asked, Answer);
         if s.finished then t.generatorDone && t.finalResult.None? && t.delivered == s.delivered
         else if s.position < |script.events| then
           !t.generatorDone && !t.finished && t.delivered == s.delivered + [(Consumer, script.events[s.position])]
         else if script.ending.Returns? then
           t.generatorDone && t.finalResult == Some(script.ending.answer) && t.delivered == s.delivered
         else !t.generatorDone && t.finished && t.delivered == s.delivered
  {
  }

  /** A draining promise is rejected exactly when its pump finds another `next()` unanswered, or the generator throws in
      answer to it; a lost race is never anything else. */
  lemma DrainFailsExactly(script: Script, s: State, l: Label, d: nat)
    requires Inv(script, s) && Enabled(s, l) && d < |After(script, s, l).drains|
    ensures After(script, s, l).drains[d].Rejected? && (d >= |s.drains| || !s.drains[d].Rejected?) <==>
      || (l.CallResult? && s.draining.None? && d == |s.drains| && !s.generatorDone && s.pumpInFlight)
      || (l == Continue(d) && !s.generatorDone && s.pumpInFlight)
      || (l.Answer? && s.unanswered[0] == Drain(d) && !s.finished && s.position == |script.events| &&
          script.ending.Throws?)
  {
    PositionInRange(script, s);
  }

  /** A woken `result()` call throws exactly when its promise was rejected or there is no result, and otherwise returns
      the generator's answer; only a rejection is forgotten, so that the next call drains again. */
  lemma WakeExactly(script: Script, s: State, w: nat)
    requires Inv(script, s) && Enabled(s, Wake(w))
    ensures var t, drain := After(script, s, Wake(w)), s.drains[s.waiters[w].on];
      && (t.waiters[w].outcome.Threw? <==> drain.Rejected? || s.finalResult.None?)
      && (t.waiters[w].outcome.Returned? ==> script.ending == Returns(t.waiters[w].outcome.answer))
      && t.draining == (if drain.Rejected? then None else s.draining)
      && t.delivered == s.delivered && t.unanswered == s.unanswered && t.drains == s.drains
  {
  }

  /** Once complete, a handle stays complete with the same result, and what has been delivered is never changed. */
  lemma {:induction false} CompletionPermanent(script: Script, s: State, labels: seq<Label>, t: State)
    requires Inv(script, s) && Reaches(script, s, labels, t)
    ensures s.generatorDone ==> t.generatorDone && t.finalResult == s.finalResult && t.delivered == s.delivered
    ensures s.delivered <= t.delivered && (s.finished ==> t.finished)
    decreases |labels|
  {
    if labels != [] {
      StepKeepsInv(script, s, labels[0]);
      CompletionPermanent(script, After(script, s, labels[0]), labels[1..], t);
    }
  }

  ghost predicate ReturnedInv(s: State) {
    (exists w :: 0 <= w < |s.waiters| && s.waiters[w].outcome.Returned?) ==> s.finished
  }

  lemma {:induction false} ReturnedMeansFinished(script: Script, s: State, labels: seq<Label>, t: State, w: nat)
    requires Inv(script, s) && Reaches(script, s, labels, t) && ReturnedInv(s)
    requires w < |t.waiters| && t.waiters[w].outcome.Returned?
    ensures t.finished
    decreases |labels|
  {
    if labels != [] {
      var s' := After(script, s, labels[0]);
      StepKeepsInv(script, s, labels[0]);
      assert ReturnedInv(s') by {
        if v :| 0 <= v < |s'.waiters| && s'.waiters[v].outcome.Returned? {
          if v < |s.waiters| && s.waiters[v].outcome.Returned? {
            assert s.finished;
          }
        }
      }
      ReturnedMeansFinished(script, s', labels[1..], t, w);
    }
  }

  // ----- The retry -----

  /** Nothing is in progress: no `next()` unanswered, no drain about to pump, no `result()` call still waiting. */
  predicate Quiescent(s: State) {
    && s.unanswered == []
    && (forall d | 0 <= d < |s.drains| :: Settled(s.drains[d]))
    && (forall w | 0 <= w < |s.waiters| :: !s.waiters[w].outcome.Pending?)
  }

  /** The only call in progress is the last `result()` call, waiting on a drain that has not failed. */
  ghost predicate Alone(s: State) {
    && |s.waiters| >= 1
    && var w := |s.waiters| - 1;
       var d := s.waiters[w].on;
       && d < |s.drains| && !s.drains[d].Rejected? && !s.waiters[w].outcome.Threw?
       && (forall e | 0 <= e < |s.drains| && e != d :: Settled(s.drains[e]))
       && (forall v | 0 <= v < w :: !s.waiters[v].outcome.Pending?)
       && (s.drains[d].Resolved? ==> s.unanswered == [])
       && (s.drains[d].Ready? ==> s.unanswered == [])
       && (s.drains[d].Pumping? ==> s.unanswered == [Drain(d)])
       && (s.waiters[w].outcome.Returned? ==> s.drains[d].Resolved?)
  }

  /** Internal steps left before a call that is alone returns. */
  function Remaining(script: Script, s: State): nat
    requires |s.waiters| >= 1 && s.waiters[|s.waiters| - 1].on < |s.drains|
    requires s.position <= |script.events|
  {
    var waiter := s.waiters[|s.waiters| - 1];
    match s.drains[waiter.on]
    case Pumping => 2 * (|script.events| - s.position) + 2
    case Ready => 2 * (|script.events| - s.position) + 3
    case Resolved => if waiter.outcome.Pending? then 1 else 0
    case Rejected => 0
  }

  lemma RetryStartsAlone(script: Script, s: State)
    requires Inv(script, s) && Quiescent(s)
    ensures Alone(ResultCalled(s)) && Inv(script, ResultCalled(s))
    ensures |ResultCalled(s).waiters| == |s.waiters| + 1
  {
    StepKeepsInv(script, s, CallResult);
    if s.draining.Some? && Awaited(s, s.draining.value) {
      assert false;
    }
  }

  ghost predicate StillAlone(script: Script, s: State, s': State)
    requires Alone(s) && s.position <= |script.events|
  {
    && Alone(s') && |s'.waiters| == |s.waiters| && s'.position <= |script.events|
    && Remaining(script, s') < Remaining(script, s)
  }

  lemma AloneAnswered(script: Script, s: State)
    requires GeneratorInv(script, s) && DrainInv(s) && Alone(s) && s.unanswered != [] && script.ending.Returns?
    ensures StillAlone(script, s, Answered(script, s))
  {
    var d := s.waiters[|s.waiters| - 1].on;
    assert s.drains[d].Pumping? && s.unanswered == [Drain(d)] && !s.finished;
  }

  lemma AloneContinues(script: Script, s: State, d: nat)
    requires GeneratorInv(script, s) && DrainInv(s) && Alone(s) && Enabled(s, Continue(d))
    ensures StillAlone(script, s, DrainContinues(s, d))
  {
    assert d == s.waiters[|s.waiters| - 1].on;
  }

  lemma AloneWakes(script: Script, s: State, w: nat)
    requires GeneratorInv(script, s) && DrainInv(s) && Alone(s) && Enabled(s, Wake(w)) && script.ending.Returns?
    ensures StillAlone(script, s, WaiterWakes(s, w))
  {
    assert w == |s.waiters| - 1;
  }

  lemma AloneAdvances(script: Script, s: State, l: Label)
    requires Inv(script, s) && Alone(s) && Internal(l) && Enabled(s, l) && script.ending.Returns?
    ensures Inv(script, After(script, s, l)) && StillAlone(script, s, After(script, s, l))
  {
    StepKeepsInv(script, s, l);
    hide GeneratorInv, DrainInv, WaiterInv, Alone, StillAlone, Answered, DrainContinues, WaiterWakes;
    PositionInRange(script, s);
    match l
    case Answer => AloneAnswered(script, s);
    case Continue(d) => AloneContinues(script, s, d);
    case Wake(w) => AloneWakes(script, s, w);
  }

  lemma PositionInRange(script: Script, s: State)
    requires GeneratorInv(script, s)
    ensures s.position <= |script.events|
  {
  }

  lemma AloneNotStuck(script: Script, s: State)
    requires Inv(script, s) && Alone(s) && script.ending.Returns?
    ensures s.waiters[|s.waiters| - 1].outcome == Returned(script.ending.answer) ||
            exists l :: Internal(l) && Enabled(s, l)
  {
    var w := |s.waiters| - 1;
    var d := s.waiters[w].on;
    match s.drains[d]
    case Pumping => assert Enabled(s, Answer);
    case Ready => assert Enabled(s, Continue(d));
    case Resolved =>
      if s.waiters[w].outcome.Pending? {
        assert Enabled(s, Wake(w));
      }
    case Rejected =>
  }

  /** A `result()` call made while nothing else is in progress, whatever was lost before, cannot fail when the
      generator returns: whichever internal steps are taken, there are at most `Remaining` of them, the call never
      throws, and it has returned the generator's answer once no step is left. */
  lemma {:induction false} RetrySucceeds(script: Script, s: State, labels: seq<Label>, t: State)
    requires Inv(script, s) && Quiescent(s) && script.ending.Returns?
    requires Reaches(script, ResultCalled(s), labels, t) && forall l | l in labels :: Internal(l)
    ensures |t.waiters| == |s.waiters| + 1 && !t.waiters[|s.waiters|].outcome.Threw?
    ensures |labels| <= 2 * |script.events| + 3
    ensures (forall l | Internal(l) :: !Enabled(t, l)) ==>
              t.waiters[|s.waiters|].outcome == Returned(script.ending.answer)
  {
    RetryStartsAlone(script, s);
    AloneRun(script, ResultCalled(s), labels, t);
    AloneNotStuck(script, t);
  }

  lemma {:induction false} AloneRun(script: Script, s: State, labels: seq<Label>, t: State)
    requires Inv(script, s) && Alone(s) && script.ending.Returns?
    requires Reaches(script, s, labels, t) && forall l | l in labels :: Internal(l)
    ensures Inv(script, t) && Alone(t) && |t.waiters| == |s.waiters|
    ensures |labels| + Remaining(script, t) <= Remaining(script, s)
    decreases |labels|
  {
    if labels != [] {
      var s' := After(script, s, labels[0]);
      assert labels[0] in labels;
      AloneAdvances(script, s, labels[0]);
      AloneRun(script, s', labels[1..], t);
    }
  }

  // ----- The handle as the source writes it, one method per stretch of code between awaits -----

  class Handle {
    const script: Script

    // the closure variables
    var finalResult: Option<Answer>
    var generatorDone: bool
    var pumpInFlight: bool
    var draining: Option<nat>

    // the generator and the promises
    var position: nat
    var finished: bool
    var unanswered: seq<Owner>
    var drains: seq<DrainState>
    var waiters: seq<Waiter>
    var delivered: seq<(Owner, Event)>

    constructor (script: Script)
      ensures this.script == script && Snapshot() == Fresh && Inv(script, Snapshot()) && fresh(this)
    {
      this.script := script;
      finalResult, generatorDone, pumpInFlight, draining := None, false, false, None;
      position, finished, unanswered, drains, waiters, delivered := 0, false, [], [], [], [];
    }

    function Snapshot(): State
      reads this
    {
      State(generatorDone, finalResult, pumpInFlight, draining, position, finished, unanswered, drains, waiters,
            delivered)
    }

    /** `pump` up to its await. */
    method BeginPump(owner: Owner) returns (p: Pumped)
      requires Inv(script, Snapshot())
      modifies this`pumpInFlight, this`unanswered
      ensures p == PumpResult(old(Snapshot())) && Snapshot() == Pump(old(Snapshot()), owner)
      ensures p.Awaiting? ==> old(unanswered) == [] && unanswered == [owner]
    {
      if generatorDone {
        return AlreadyDone;
      }
      if pumpInFlight {
        return Refused;
      }
      pumpInFlight := true;
      unanswered := unanswered + [owner];
      return Awaiting;
    }

    method Next() returns (p: Pumped)
      requires Inv(script, Snapshot())
      modifies this`pumpInFlight, this`unanswered
      ensures Inv(script, Snapshot()) && Snapshot() == After(script, old(Snapshot()), CallNext)
    {
      StepKeepsInv(script, Snapshot(), CallNext);
      p := BeginPump(Consumer);
    }

    /** `result()` up to its await; a new draining promise starts with a pump at once. */
    method Result() returns (w: nat)
      requires Inv(script, Snapshot())
      modifies this
      ensures Inv(script, Snapshot()) && Snapshot() == After(script, old(Snapshot()), CallResult)
      ensures w < |waiters| && waiters[w].outcome.Pending?
    {
      StepKeepsInv(script, Snapshot(), CallResult);
      hide Inv, PumpResult, DrainAfter;
      if draining.None? {
        var d := |drains|;
        var p := BeginPump(Drain(d));
        drains := drains + [DrainAfter(p)];
        draining := Some(d);
      }
      w := |waiters|;
      waiters := waiters + [Waiter(draining.value, Pending)];
    }

    /** The generator answers, and `pump` continues past its await. */
    method Answer()
      requires Inv(script, Snapshot()) && unanswered != []
      modifies this
      ensures Inv(script, Snapshot()) && Snapshot() == After(script, old(Snapshot()), Label.Answer)
    {
      StepKeepsInv(script, Snapshot(), Label.Answer);
      hide Inv;
      var owner := unanswered[0];
      unanswered := unanswered[1..];
      var to: DrainState;
      if !finished && position < |script.events| {
        delivered := delivered + [(owner, script.events[position])];
        position := position + 1;
        to := Ready;
      } else if !finished && script.ending.Throws? {
        finished := true;
        to := Rejected;
      } else {
        generatorDone := true;
        finalResult := if finished then None else Some(script.ending.answer);
        finished := true;
        to := Resolved;
      }
      if owner.Drain? && owner.d < |drains| {
        drains := drains[owner.d := to];
      }
      pumpInFlight := false;
    }

    /** One more round of the loop in `drainFully`. */
    method ContinueDrain(d: nat)
      requires Inv(script, Snapshot()) && d < |drains| && drains[d].Ready?
      modifies this
      ensures Inv(script, Snapshot()) && Snapshot() == After(script, old(Snapshot()), Continue(d))
    {
      StepKeepsInv(script, Snapshot(), Continue(d));
      var p := BeginPump(Drain(d));
      drains := drains[d := DrainAfter(p)];
    }

    /** `result()` past its await. */
    method WakeResult(w: nat)
      requires Inv(script, Snapshot()) && Enabled(Snapshot(), Wake(w))
      modifies this
      ensures Inv(script, Snapshot()) && Snapshot() == After(script, old(Snapshot()), Wake(w))
    {
      StepKeepsInv(script, Snapshot(), Wake(w));
      var outcome := Threw;
      if drains[waiters[w].on].Rejected? {
        draining := None;
      } else if finalResult.Some? {
        outcome := Returned(finalResult.value);
      }
      waiters := waiters[w := waiters[w].(outcome := outcome)];
    }
  }
}
