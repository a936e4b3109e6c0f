/**
  The scene inside its host. The animation manager runs at most one timeline at a
  time: playing a timeline replaces the one running, and the completion callback
  is made only for the timeline that is running when it ends, naming it. The
  outside world can enter the scene (which plays the opening), tap, or let the
  running timeline finish.

  Under this host the read of the line list is always in range as long as the
  scene is entered only once: the unguarded read behind the "StartEnd" report is
  safe because "StartEnd" is only ever played from `StartAnimationEnd`, which is
  reached only through the "Start" report while the index is still 0.
 */
module AnimationHost {
  import opened PrologueScene

  /** The scene and the timeline the animation manager is running, if any. */
  datatype System = System(scene: Scene, running: Option<Timeline>)

  /** What the outside world can do to the system. */
  datatype HostEvent =
    | Enter    // the enter transition finished: `onEnterTransitionDidFinish`
    | Touched  // a tap reaches `onTouchBegan`
    | Finish   // the running timeline reaches its end

  /** One step of the system: where it goes and what it puts on the label, or the out-of-range read. */
  datatype StepResult = Moved(next: System, shown: Option<string>) | Crashed(index: nat)

  /** The scene freshly constructed, nothing running yet. */
  const Boot: System := System(Initial, None)

  /** Every line shown, the last exit timeline finished: nothing can happen any more. */
  const Finale: System := System(Scene(TextEndAnimation, Count), None)

  /** A timeline the scene asks for replaces `running`; otherwise `running` carries on. */
  function Apply(running: Option<Timeline>, o: Outcome): StepResult
  {
    match o
    case OutOfRange(i) => Crashed(i)
    case Done(re) =>
      Moved(System(re.scene, if re.played.Some? then Some(re.played.value.timeline) else running), re.shown)
  }

  /** The system's response to one event. */
  function Step(sys: System, e: HostEvent): (r: StepResult)
    ensures r.Moved? && r.shown.Some? ==>
              && sys.scene.index < Count
              && r.shown.value == Messages[sys.scene.index]
              && r.next.scene.index == sys.scene.index + 1
    ensures r.Moved? && r.shown.None? ==> r.next.scene.index == sys.scene.index
  {
    match e
    case Enter =>
      var re := AnimationStart(sys.scene);
      Moved(System(re.scene, Some(re.played.value.timeline)), re.shown)
    case Touched =>
      Apply(sys.running, Touch(sys.scene).outcome)
    case Finish =>
      if sys.running.None? then Moved(sys, None)
      else
        Apply(None, Completed(sys.scene, Name(sys.running.value)))
  }

  /** The result of a sequence of events: the final system and the lines shown, in order, or the bad read. */
  datatype Trace = Trace(last: System, shown: seq<string>) | Halted(index: nat)

  /** The lines a step put on the label, as a sequence. */
  function Emitted(shown: Option<string>): seq<string>
  {
    if shown.Some? then [shown.value] else []
  }

  /** A run that had already shown `before` when it went on to `t`. */
  function Continue(before: seq<string>, t: Trace): Trace
  {
    match t
    case Halted(i) => Halted(i)
    case Trace(last, rest) => Trace(last, before + rest)
  }

  /** `lines` are consecutive lines of the list, the first of them the one at index `k`. */
  predicate ShowsFrom(k: nat, lines: seq<string>) {
    lines == [] || (k + |lines| <= Count && lines == Messages[k..k + |lines|])
  }

  lemma {:induction false} ShowsFromAppend(k: nat, a: seq<string>, b: seq<string>)
    requires ShowsFrom(k, a) && ShowsFrom(k + |a|, b)
    ensures ShowsFrom(k, a + b)
  {
    if a == [] {
      assert a + b == b;
    } else if b == [] {
      assert a + b == a;
    } else {
      var m, n := k + |a|, k + |a| + |b|;
      assert Messages[k..n] == Messages[k..m] + Messages[m..n];
    }
  }

  /**
    Runs a sequence of events. The index ends up counting exactly the lines
    shown on the way.
   */
  function Run(sys: System, events: seq<HostEvent>): (t: Trace)
    ensures t.Trace? ==> sys.scene.index + |t.shown| == t.last.scene.index
    decreases |events|
  {
    if events == [] then Trace(sys, [])
    else
      match Step(sys, events[0])
      case Crashed(i) => Halted(i)
      case Moved(next, shown) => Continue(Emitted(shown), Run(next, events[1..]))
  }

  /**
    Whatever the events, the lines that appear on the label are consecutive
    lines of the list, starting at the index the run starts from.
   */
  lemma {:induction false} RunShowsConsecutiveLines(sys: System, events: seq<HostEvent>)
    requires Run(sys, events).Trace?
    ensures ShowsFrom(sys.scene.index, Run(sys, events).shown)
    decreases |events|
  {
    if events != [] {
      var r := Step(sys, events[0]);
      RunShowsConsecutiveLines(r.next, events[1..]);
      ShowsFromAppend(sys.scene.index, Emitted(r.shown), Run(r.next, events[1..]).shown);
    }
  }

  /**
    The system invariant: the index is in range, and whenever the opening or its
    closing timeline is running, or the scene is waiting for the tap after the
    opening, no line has been shown yet.
   */
  predicate Inv(sys: System) {
    && Valid(sys.scene)
    && (|| sys.scene.state == StartAnimationEnd
        || sys.running == Some(Start)
        || sys.running == Some(StartEnd)
        ==> sys.scene.index == 0)
  }

  /** The constructed scene, nothing yet running, satisfies the invariant. */
  lemma BootInv()
    ensures Inv(Boot) && Boot.scene == Initial && Boot.running.None?
  {
  }

  /** Every event keeps the invariant and never reads out of range; entering is safe only before the first line. */
  lemma StepKeepsInv(sys: System, e: HostEvent)
    requires Inv(sys)
    requires e == Enter ==> sys.scene.index == 0
    ensures Step(sys, e).Moved? && Inv(Step(sys, e).next)
  {
  }

  /** A run that does not enter the scene again keeps the invariant and never reads out of range. */
  lemma {:induction false} RunKeepsInv(sys: System, events: seq<HostEvent>)
    requires Inv(sys) && Enter !in events
    ensures Run(sys, events).Trace? && Inv(Run(sys, events).last)
    decreases |events|
  {
    if events != [] {
      StepKeepsInv(sys, events[0]);
      assert Enter !in events[1..] by {
        assert forall x :: x in events[1..] ==> x in events;
      }
      RunKeepsInv(Step(sys, events[0]).next, events[1..]);
    }
  }

  /**
    The scene entered once: whatever taps and completions follow, the list is
    never read out of range, and the label has shown exactly the first lines of
    the list, in order, each once, as many as the index counts.
   */
  lemma EnteredOnce(events: seq<HostEvent>)
    requires Enter !in events
    ensures Run(Boot, [Enter] + events).Trace?
    ensures Inv(Run(Boot, [Enter] + events).last)
    ensures Run(Boot, [Enter] + events).shown == Messages[..Run(Boot, [Enter] + events).last.scene.index]
  {
    var all := [Enter] + events;
    StepKeepsInv(Boot, Enter);
    assert all[1..] == events;
    RunKeepsInv(Step(Boot, Enter).next, events);
    RunShowsConsecutiveLines(Boot, all);
  }

  // ---------------------------------------------------------------------------
  // Concrete runs
  // ---------------------------------------------------------------------------

  /** Continuing twice is continuing once with both prefixes. */
  lemma ContinueTwice(a: seq<string>, b: seq<string>, t: Trace)
    ensures Continue(a, Continue(b, t)) == Continue(a + b, t)
  {
  }

  /** Running two sequences one after the other. */
  lemma {:induction false} RunAppend(sys: System, a: seq<HostEvent>, b: seq<HostEvent>)
    requires Run(sys, a).Trace?
    ensures Run(sys, a + b) == Continue(Run(sys, a).shown, Run(Run(sys, a).last, b))
    decreases |a|
  {
    if a == [] {
      assert a + b == b;
      assert Run(sys, b) == Continue([], Run(sys, b));
    } else {
      assert (a + b)[0] == a[0];
      assert (a + b)[1..] == a[1..] + b;
      var r := Step(sys, a[0]);
      var pre := Emitted(r.shown);
      RunAppend(r.next, a[1..], b);
      var inner := Run(r.next, a[1..]);
      ContinueTwice(pre, inner.shown, Run(inner.last, b));
    }
  }

  /** Entering, letting the opening finish, tapping, and letting its closing finish. */
  const Opening: seq<HostEvent> := [Enter, Finish, Touched, Finish]

  /** Letting a line's entrance finish, tapping, and letting its exit finish. */
  const Cycle: seq<HostEvent> := [Finish, Touched, Finish]

  function Cycles(n: nat): seq<HostEvent>
  {
    if n == 0 then [] else Cycle + Cycles(n - 1)
  }

  /** A line's entrance is running with `k` lines shown. */
  function Entering(k: nat): System {
    System(Scene(TextStartAnimation, k), Some(TextStart))
  }

  /** Entering, the opening, the tap after it and its closing put the first line on the label. */
  lemma OpeningShowsFirstLine()
    ensures Run(Boot, Opening) == Trace(Entering(1), [Messages[0]])
  {
  }

  /** One cycle shows the next line when there is one, and otherwise brings the scene to rest. */
  lemma OneCycle(k: nat)
    requires 1 <= k <= Count
    ensures k < Count ==> Run(Entering(k), Cycle) == Trace(Entering(k + 1), [Messages[k]])
    ensures k == Count ==> Run(Entering(k), Cycle) == Trace(Finale, [])
  {
  }

  /** A cycle followed by more events: the cycle's effect, then the rest from where it left off. */
  lemma CycleThen(k: nat, rest: seq<HostEvent>)
    requires 1 <= k < Count
    ensures Run(Entering(k), Cycle + rest) == Continue([Messages[k]], Run(Entering(k + 1), rest))
  {
    OneCycle(k);
    RunAppend(Entering(k), Cycle, rest);
  }

  /** Cycling from the `k`-th line shows the rest of the list and comes to rest. */
  lemma {:induction false} CyclesShowRest(k: nat)
    requires 1 <= k <= Count
    ensures Run(Entering(k), Cycles(Count + 1 - k)) == Trace(Finale, Messages[k..])
    decreases Count - k
  {
    var n := Count + 1 - k;
    var rest := Cycles(n - 1);
    assert Cycles(n) == Cycle + rest;
    if k < Count {
      CycleThen(k, rest);
      CyclesShowRest(k + 1);
      assert Run(Entering(k + 1), rest) == Trace(Finale, Messages[k + 1..]);
      assert Messages[k..] == [Messages[k]] + Messages[k + 1..];
    } else {
      assert rest == [] && Cycle + rest == Cycle;
      OneCycle(k);
      assert Messages[k..] == [];
    }
  }

  /** Tapping through the whole prologue shows all seven lines in order and leaves the scene at rest. */
  lemma TapThroughShowsAll()
    ensures Run(Boot, Opening + Cycles(Count)) == Trace(Finale, Messages)
  {
    OpeningShowsFirstLine();
    RunAppend(Boot, Opening, Cycles(Count));
    CyclesShowRest(1);
    assert [Messages[0]] + Messages[1..] == Messages;
  }

  /** At rest, taps and completions change nothing. */
  lemma FinaleIsQuiet(e: HostEvent)
    requires e != Enter
    ensures Step(Finale, e) == Moved(Finale, None)
  {
  }

  /**
    Entering the scene a second time once every line has been shown replays the
    opening, and the report that its closing timeline finished then reads the
    list at its length: the unguarded read is safe only for a scene entered once.
   */
  lemma ReentryReadsPastEnd()
    ensures Run(Finale, Opening) == Halted(Count)
  {
  }
}
