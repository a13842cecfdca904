/** Pausing the stream consumer (pkg/streaming/consumer.go): the handshake between callers of
    Pause, Resume and Stop and the run loop, as a state machine whose steps are what each does
    under the mutex. */
module PauseHandshake {
  import opened Wrappers

  /** Where the run loop is. Waiting names the wake channel it waits on; channels are numbered
      by generation, and all but the current one are closed. */
  datatype Loop = Off | AtTop | Waiting(generation: nat) | Stepping | Exiting

  datatype Caller = Waits(generation: nat) | Returned | Cancelled

  datatype State = State(paused: bool, parked: bool, running: bool, stopped: bool, generation: nat,
                         loop: Loop, callers: map<nat, Caller>, steps: nat)

  datatype Event =
    | Start
    | Stop
    | Pause(p: nat)
    | CallerWakes(p: nat)
    | CallerCancels(p: nat)
    | Resume
    | LoopTop
    | LoopWakes
    | LoopCancelled
    | StepEnds
    | LoopExits

  function Signalled(s: State): State { s.(generation := s.generation + 1) }

  /** What the caller p does when it holds the mutex: wait, or return. */
  function CallerChecks(s: State, p: nat): State {
    s.(callers := s.callers[p := if s.running && !s.parked then Waits(s.generation) else Returned])
  }

  /** The loop in parkIfPaused. */
  function Parks(s: State): State {
    if s.paused then
      var t := if s.parked then s else Signalled(s.(parked := true));
      t.(loop := Waiting(t.generation))
    else if s.stopped then s.(parked := false, loop := Exiting)
    else s.(parked := false, loop := Stepping, steps := s.steps + 1)
  }

  function Next(s: State, e: Event): State {
    match e
    case Start => if s.running then s else s.(running := true, stopped := false, loop := AtTop)
    case Stop => s.(stopped := true)
    case Pause(p) => if p in s.callers && s.callers[p].Waits? then s else CallerChecks(Signalled(s.(paused := true)), p)
    case CallerWakes(p) =>
      if p in s.callers && s.callers[p].Waits? && s.callers[p].generation != s.generation then CallerChecks(s, p) else s
    case CallerCancels(p) => if p in s.callers && s.callers[p].Waits? then s.(callers := s.callers[p := Cancelled])
                             else s
    case Resume => Signalled(s.(paused := false))
    case LoopTop => if !s.loop.AtTop? then s else if s.stopped then s.(loop := Exiting) else Parks(s)
    case LoopWakes => if s.loop.Waiting? && s.loop.generation != s.generation then Parks(s) else s
    case LoopCancelled => if s.loop.Waiting? && s.stopped then s.(loop := Exiting) else s
    case StepEnds => if s.loop.Stepping? then s.(loop := AtTop) else s
    case LoopExits => if s.loop.Exiting? then Signalled(s.(running := false, parked := false, loop := Off)) else s
  }

  ghost function Run(s: State, events: seq<Event>): State {
    if events == [] then s else Next(Run(s, events[..|events| - 1]), events[|events| - 1])
  }

  function Initial(): State { State(false, false, false, false, 0, Off, map[], 0) }

  // ---------------------------------------------------------------- the invariant

  /** A caller waits on the current channel only for something that will close it. */
  ghost predicate CallersWait(s: State) {
    forall p | p in s.callers && s.callers[p].Waits? ::
      s.callers[p].generation <= s.generation && (s.callers[p].generation == s.generation ==> s.running && !s.parked)
  }

  ghost predicate Holds(s: State) {
    && (s.running <==> !s.loop.Off?)
    && (s.parked ==> s.loop.Waiting? || s.loop.Exiting?)
    && (s.loop.Waiting? ==>
          s.parked && s.loop.generation <= s.generation && (s.loop.generation == s.generation ==> s.paused))
    && (s.loop.Exiting? ==> s.stopped)
    && CallersWait(s)
  }

  lemma StepHolds(s: State, e: Event)
    requires Holds(s)
    ensures Holds(Next(s, e))
  {
  }

  lemma {:induction false} RunHolds(s: State, events: seq<Event>)
    requires Holds(s)
    ensures Holds(Run(s, events))
    decreases |events|
  {
    if events != [] {
      RunHolds(s, events[..|events| - 1]);
      StepHolds(Run(s, events[..|events| - 1]), events[|events| - 1]);
    }
  }

  // ---------------------------------------------------------------- what follows

  /** In every run, while the consumer is paused and parked no step is running. */
  lemma DrainedIsStill(events: seq<Event>)
    ensures var s := Run(Initial(), events); s.paused && s.parked ==> !s.loop.Stepping? && !s.loop.AtTop?
  {
    RunHolds(Initial(), events);
  }

  /** And none starts until somebody resumes it, or starts a stopped consumer anew, which then
      parks before its first step. */
  lemma {:induction false} NoneStarts(s: State, events: seq<Event>)
    requires Holds(s) && s.paused && !s.loop.Stepping?
    requires Resume !in events
    ensures var t := Run(s, events); Holds(t) && t.paused && !t.loop.Stepping? && t.steps == s.steps
    decreases |events|
  {
    hide Next, Holds;
    if events != [] {
      var n := |events| - 1;
      assert forall e | e in events[..n] :: e in events;
      assert events[n] in events;
      NoneStarts(s, events[..n]);
      NotStarted(Run(s, events[..n]), events[n]);
    }
  }

  lemma NotStarted(s: State, e: Event)
    requires Holds(s) && s.paused && !s.loop.Stepping? && e != Resume
    ensures var t := Next(s, e); Holds(t) && t.paused && !t.loop.Stepping? && t.steps == s.steps
  {
    StepHolds(s, e);
    hide Holds;
  }

  /** A call of Pause that has just returned found the node still, and it stays so until a
      Resume: Pause returns at the moment e, with its answer. */
  lemma ReturnedPauseIsStill(before: seq<Event>, e: Event, p: nat, after: seq<Event>)
    requires var s := Run(Initial(), before);
             (e == Pause(p) || (e == CallerWakes(p) && s.paused))
             && (p in s.callers ==> s.callers[p] != Returned) && p in Next(s, e).callers
             && Next(s, e).callers[p] == Returned
    requires Resume !in after
    ensures var s := Next(Run(Initial(), before), e);
            var t := Run(s, after);
            t.paused && !t.loop.Stepping? && t.steps == s.steps
  {
    var s := Run(Initial(), before);
    RunHolds(Initial(), before);
    StepHolds(s, e);
    NoneStarts(Next(s, e), after);
  }

  /** What the run loop does by itself from where it is. */
  function LoopEvents(s: State): seq<Event> {
    if s.loop.Stepping? then [StepEnds, LoopTop, LoopExits]
    else if s.loop.AtTop? then [LoopTop, LoopExits]
    else if s.loop.Exiting? then [LoopExits]
    else []
  }

  /** No wakeup is lost: whoever waits in Pause while the consumer stays paused returns, once
      the current step, if there is one, has ended and the loop went on. */
  lemma PauseReturns(s: State, p: nat)
    requires Holds(s) && s.paused && p in s.callers && s.callers[p].Waits?
    ensures var t := Run(s, LoopEvents(s));
            && p in t.callers && t.callers[p].Waits? && t.callers[p].generation != t.generation
            && Next(t, CallerWakes(p)).callers[p] == Returned
            && t.steps == s.steps
  {
    hide Run, LoopEvents;
    RunThree(s);
  }

  lemma RunThree(s: State)
    ensures Run(s, LoopEvents(s)) ==
            if s.loop.Stepping? then Next(Next(Next(s, StepEnds), LoopTop), LoopExits)
            else if s.loop.AtTop? then Next(Next(s, LoopTop), LoopExits)
            else if s.loop.Exiting? then Next(s, LoopExits)
            else s
  {
    hide Next, Run;
    RunNone(s);
    if s.loop.Stepping? {
      RunOne(s, [], StepEnds);
      RunOne(s, [StepEnds], LoopTop);
      RunOne(s, [StepEnds, LoopTop], LoopExits);
      assert [] + [StepEnds] == [StepEnds] && [StepEnds] + [LoopTop] == [StepEnds, LoopTop];
      assert [StepEnds, LoopTop] + [LoopExits] == LoopEvents(s);
    } else if s.loop.AtTop? {
      RunOne(s, [], LoopTop);
      RunOne(s, [LoopTop], LoopExits);
      assert [] + [LoopTop] == [LoopTop] && [LoopTop] + [LoopExits] == LoopEvents(s);
    } else if s.loop.Exiting? {
      RunOne(s, [], LoopExits);
      assert [] + [LoopExits] == LoopEvents(s);
    }
  }

  lemma RunNone(s: State)
    ensures Run(s, []) == s
  {
  }

  lemma RunOne(s: State, events: seq<Event>, e: Event)
    ensures Run(s, events + [e]) == Next(Run(s, events), e)
  {
    assert (events + [e])[..|events|] == events;
  }

  /** A paused loop goes on after a Resume: it is woken, and starts a step unless it was stopped. */
  lemma ResumeWakes(s: State)
    requires Holds(s) && s.loop.Waiting?
    ensures var t := Next(Next(s, Resume), LoopWakes);
            !t.parked && if s.stopped then t.loop.Exiting? else t.loop.Stepping? && t.steps == s.steps + 1
  {
  }

  /** A caller that waits can be overtaken by a Resume: it then waits for a later pause. */
  lemma ResumeOvertakesPause(s: State, p: nat)
    requires s.running && s.loop.Stepping? && !s.stopped && !s.parked && p !in s.callers
    ensures var t := Next(Next(Next(Next(Next(s, Pause(p)), Resume), StepEnds), LoopTop), CallerWakes(p));
            p in t.callers && t.callers[p] == Waits(t.generation) && !t.paused && t.loop.Stepping?
            && t.steps == s.steps + 1
  {
    var s1 := Next(s, Pause(p));
    assert s1.callers[p] == Waits(s1.generation);
    var s2 := Next(s1, Resume);
    var s3 := Next(s2, StepEnds);
    var s4 := Next(s3, LoopTop);
    assert s4.callers == s1.callers && s4.generation == s1.generation + 1;
  }

  /** A consumer that is started steps at once, or parks while it is paused, also when it was
      stopped before. */
  lemma StartRuns(s: State)
    requires !s.running
    ensures var t := Next(Next(s, Start), LoopTop);
            && t.running && !t.stopped && t.paused == s.paused && t.callers == s.callers
            && if s.paused then t.parked && t.loop.Waiting?
               else !t.parked && t.loop.Stepping? && t.steps == s.steps + 1
  {
  }

  /** A consumer that is stopped ends, wherever its loop is, and then whoever waits in Pause can
      return. Starting one that runs changes nothing. */
  lemma StopEnds(s: State, p: nat)
    requires Holds(s) && s.running && CallersWait(s)
    ensures Next(s, Start) == s
    ensures var stopped := Next(s, Stop);
            var idle := if s.loop.Stepping? then Next(stopped, StepEnds) else stopped;
            var exiting := if s.loop.Waiting? then Next(idle, LoopCancelled) else Next(idle, LoopTop);
            var t := Next(exiting, LoopExits);
            && !t.running && t.loop.Off? && t.steps == s.steps && t.callers == s.callers
            && (p in s.callers && s.callers[p].Waits? ==> Next(t, CallerWakes(p)).callers[p] == Returned)
  {
  }

  /** A caller that gives up ends its own wait and nothing else. */
  lemma CancelEndsWait(s: State, p: nat)
    ensures Next(s, CallerCancels(p)) == if p in s.callers && s.callers[p].Waits?
                                         then s.(callers := s.callers[p := Cancelled]) else s
  {
  }
}
