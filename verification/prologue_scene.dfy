/**
  The prologue scene's sequencing logic: a five-state machine together with an
  index into a fixed list of seven text lines. Two kinds of event drive it, a tap
  and the host's report that a named timeline finished. Every call the scene makes
  into the host (playing a timeline, setting the label's text) is returned as data
  in a `Reaction` instead of being performed.
 */
module PrologueScene {

  datatype Option<+T> = None | Some(value: T)

  /** The scene's `_state`. */
  datatype State =
    | TouchIgnore
    | StartAnimationEnd
    | TextStartAnimation
    | TextStartAnimationEnd
    | TextEndAnimation

  /** The timelines authored in the scene's node graph. */
  datatype Timeline = Start | StartEnd | TextStart | TextEnd

  /** The name under which the animation manager knows a timeline. */
  function Name(t: Timeline): string
  {
    match t
    case Start => "Start"
    case StartEnd => "StartEnd"
    case TextStart => "TextStart"
    case TextEnd => "TextEnd"
  }

  /** Distinct timelines have distinct names, so a completion report identifies its timeline. */
  lemma NameInjective(a: Timeline, b: Timeline)
    ensures Name(a) == Name(b) <==> a == b
  {
  }

  /**
    A request to the animation manager to play a timeline. `firstDelay` stands for
    the 0.3-second tween the first text line gets; every other request uses none.
   */
  datatype Play = Play(timeline: Timeline, firstDelay: bool)

  /** The scene's mutable fields that matter: `_state` and `_messageIndex`. */
  datatype Scene = Scene(state: State, index: nat)

  /** The text lines filled in by `init`, in the order they are shown. */
  const Messages: seq<string> := [
    "宇宙のどこかにある、名前のない小さな惑星。",
    "そこに、『君』はたったひとりで暮らしています。",
    "そんなある日、空から轟音と共に何かが落ちてきました。",
    "『君』が恐る恐る近づいてみるとーー。",
    "「……ここはどこでしょう？」",
    "それは突然動き出し、『君』に尋ねたのです。",
    "（画面をタップして次へ）"
  ]

  /** `_messageArray->count()`. */
  const Count: nat := |Messages|

  /** The scene as the constructor leaves it. */
  const Initial: Scene := Scene(TouchIgnore, 0)

  /** The index may still be read or has just run past the last line. */
  predicate Valid(s: Scene) {
    s.index <= Count
  }

  /** What one event does: the scene afterwards, the timeline played and the text put on the label. */
  datatype Reaction = Reaction(scene: Scene, played: Option<Play>, shown: Option<string>)

  /**
    The result of an event: a reaction, or a read of the message list at an index
    that is not in it (the source's `getObjectAtIndex` past the end).
   */
  datatype Outcome = Done(reaction: Reaction) | OutOfRange(index: nat)

  /** `onTouchBegan`'s effect together with its return value: whether the touch was claimed. */
  datatype TouchResult = TouchResult(outcome: Outcome, claimed: bool)

  /** Nothing changes, nothing is played and nothing is shown. */
  predicate Quiet(s: Scene, o: Outcome) {
    o == Done(Reaction(s, None, None))
  }

  /**
    The next line is put on the label: the one at the current index, played with
    the first-line delay exactly when it is the first line, the index moving on by one.
   */
  predicate ShowsNext(s: Scene, o: Outcome) {
    && s.index < Count
    && o.Done?
    && o.reaction.shown == Some(Messages[s.index])
    && o.reaction.played == Some(Play(TextStart, s.index == 0))
    && o.reaction.scene == Scene(TextStartAnimation, s.index + 1)
  }

  /** Plays `t` without delay and moves to `next`, keeping the index and the label. */
  predicate PlaysThen(s: Scene, o: Outcome, t: Timeline, next: State) {
    o == Done(Reaction(Scene(next, s.index), Some(Play(t, false)), None))
  }

  /** `animationStart`: play the opening timeline; state and index stay as they are. */
  function AnimationStart(s: Scene): (r: Reaction)
    ensures r.scene == s && r.shown == None
    ensures r.played.Some? && r.played.value.timeline == Start && !r.played.value.firstDelay
  {
    Reaction(s, Some(Play(Start, false)), None)
  }

  /** `animationStartEnd`: stop listening to taps and play the opening's closing timeline. */
  function AnimationStartEnd(s: Scene): (o: Outcome)
    ensures o.Done? && o.reaction.scene.index == s.index && o.reaction.shown == None
    ensures o.reaction.scene.state == TouchIgnore
    ensures o.reaction.played.Some? && o.reaction.played.value.timeline == StartEnd
    ensures !o.reaction.played.value.firstDelay
  {
    Done(Reaction(Scene(TouchIgnore, s.index), Some(Play(StartEnd, false)), None))
  }

  /**
    `animationTextStart`: read the line at the index, show it, play the text's
    entrance timeline and count the index up. The read fails when the index is
    not below the number of lines.
   */
  function AnimationTextStart(s: Scene): (o: Outcome)
    ensures o.OutOfRange? <==> s.index >= Count
    ensures o.OutOfRange? ==> o.index == s.index
    ensures o.Done? ==> ShowsNext(s, o)
  {
    if s.index < Count then
      Done(Reaction(Scene(TextStartAnimation, s.index + 1),
                    Some(Play(TextStart, s.index == 0)),
                    Some(Messages[s.index])))
    else
      OutOfRange(s.index)
  }

  /** `animationTextEnd`: play the text's exit timeline; index and label stay. */
  function AnimationTextEnd(s: Scene): (o: Outcome)
    ensures o.Done? && o.reaction.scene.index == s.index && o.reaction.shown == None
    ensures o.reaction.scene.state == TextEndAnimation
    ensures o.reaction.played.Some? && o.reaction.played.value.timeline == TextEnd
    ensures !o.reaction.played.value.firstDelay
  {
    Done(Reaction(Scene(TextEndAnimation, s.index), Some(Play(TextEnd, false)), None))
  }

  /** `onTouchBegan`: the tap handler. It never claims the touch. */
  function Touch(s: Scene): (r: TouchResult)
    ensures !r.claimed
    ensures r.outcome.OutOfRange? <==> s.state == TextEndAnimation && s.index > Count
    ensures r.outcome.Done? ==> r.outcome.reaction.scene.index in {s.index, s.index + 1}
  {
    match s.state
    case StartAnimationEnd => TouchResult(AnimationStartEnd(s), false)
    case TextStartAnimation => TouchResult(AnimationTextEnd(s), false)
    case TextStartAnimationEnd => TouchResult(AnimationTextEnd(s), false)
    case TextEndAnimation =>
      if s.index == Count then TouchResult(Done(Reaction(s, None, None)), false)
      else TouchResult(AnimationTextStart(s), false)
    case _ => TouchResult(Done(Reaction(s, None, None)), false)
  }

  /** `completedAnimationSequenceNamed`: the host reports that the timeline called `name` finished. */
  function Completed(s: Scene, name: string): (o: Outcome)
    ensures o.OutOfRange? <==> name == "StartEnd" && s.index >= Count
    ensures o.Done? ==> o.reaction.scene.index in {s.index, s.index + 1}
  {
    if name == "Start" then
      Done(Reaction(Scene(StartAnimationEnd, s.index), None, None))
    else if name == "StartEnd" then
      AnimationTextStart(s)
    else if name == "TextStart" then
      Done(Reaction(Scene(TextStartAnimationEnd, s.index), None, None))
    else if name == "TextEnd" then
      if s.index < Count then AnimationTextStart(s) else Done(Reaction(s, None, None))
    else
      Done(Reaction(s, None, None))
  }

  /** An event the scene reacts to. */
  datatype Event = Tap | Finished(name: string)

  /** Dispatch of an event to its handler. */
  function Handle(s: Scene, e: Event): (o: Outcome)
    ensures o.Done? ==> o.reaction.scene.index in {s.index, s.index + 1}
  {
    match e
    case Tap => Touch(s).outcome
    case Finished(name) => Completed(s, name)
  }

  // ---------------------------------------------------------------------------
  // Properties of single steps
  // ---------------------------------------------------------------------------

  /** The constructor's scene is valid, at the first line, and ignores a tap. */
  lemma InitialIgnoresTaps()
    ensures Valid(Initial) && Initial.index == 0
    ensures Quiet(Initial, Touch(Initial).outcome)
  {
  }

  /** A tap does nothing at all exactly when taps are being ignored or every line has been shown. */
  lemma TouchQuietIff(s: Scene)
    ensures Quiet(s, Touch(s).outcome)
        <==> s.state == TouchIgnore || (s.state == TextEndAnimation && s.index == Count)
  {
  }

  /** A tap after the opening has finished plays its closing timeline and starts ignoring taps. */
  lemma TouchAfterOpening(s: Scene)
    requires s.state == StartAnimationEnd
    ensures PlaysThen(s, Touch(s).outcome, StartEnd, TouchIgnore)
  {
  }

  /** A tap while a line is entering or on screen plays the line's exit timeline. */
  lemma TouchDuringText(s: Scene)
    requires s.state == TextStartAnimation || s.state == TextStartAnimationEnd
    ensures PlaysThen(s, Touch(s).outcome, TextEnd, TextEndAnimation)
  {
  }

  /**
    A tap while a line is leaving does nothing once the index equals the number
    of lines, and otherwise behaves exactly like `animationTextStart`: it shows
    the next line when there is one, and reads out of range past the end.
   */
  lemma TouchDuringTextEnd(s: Scene)
    requires s.state == TextEndAnimation
    ensures s.index == Count ==> Quiet(s, Touch(s).outcome)
    ensures s.index != Count ==> Touch(s).outcome == AnimationTextStart(s)
    ensures s.index < Count ==> ShowsNext(s, Touch(s).outcome)
  {
  }

  /** A tap shows a line exactly when it skips the exit of a line that has a successor. */
  lemma TouchShowsNextIff(s: Scene)
    ensures ShowsNext(s, Touch(s).outcome) <==> s.state == TextEndAnimation && s.index < Count
  {
  }

  /** What each completion report does. */
  lemma CompletedEffects(s: Scene, name: string)
    ensures name == "Start" ==>
              Completed(s, name) == Done(Reaction(Scene(StartAnimationEnd, s.index), None, None))
    ensures name == "TextStart" ==>
              Completed(s, name) == Done(Reaction(Scene(TextStartAnimationEnd, s.index), None, None))
    ensures name == "StartEnd" && s.index < Count ==> ShowsNext(s, Completed(s, name))
    ensures name == "TextEnd" && s.index < Count ==> ShowsNext(s, Completed(s, name))
    ensures name == "TextEnd" && s.index >= Count ==> Quiet(s, Completed(s, name))
    ensures name !in {"Start", "StartEnd", "TextStart", "TextEnd"} ==> Quiet(s, Completed(s, name))
  {
  }

  /** A completion report changes nothing exactly in these cases. */
  lemma CompletedQuietIff(s: Scene, name: string)
    ensures Quiet(s, Completed(s, name)) <==>
              || name !in {"Start", "StartEnd", "TextStart", "TextEnd"}
              || (name == "Start" && s.state == StartAnimationEnd)
              || (name == "TextStart" && s.state == TextStartAnimationEnd)
              || (name == "TextEnd" && s.index >= Count)
  {
  }

  /**
    Whichever event arrives, a line is shown only as `ShowsNext` describes, and
    otherwise the index stays and the label is left alone.
   */
  lemma HandleShowsOnlyNext(s: Scene, e: Event)
    requires Handle(s, e).Done?
    ensures Handle(s, e).reaction.shown.Some? <==> ShowsNext(s, Handle(s, e))
    ensures Handle(s, e).reaction.shown.None? ==> Handle(s, e).reaction.scene.index == s.index
  {
  }

  /**
    On a valid scene the only event that reads past the last line is the report that
    the opening's closing timeline finished, once every line has been shown; the
    tap handler and the "TextEnd" report both guard the read.
   */
  lemma OutOfRangeIff(s: Scene, e: Event)
    requires Valid(s)
    ensures Handle(s, e).OutOfRange? <==> e == Finished("StartEnd") && s.index == Count
  {
  }

  /** Every event keeps a valid scene valid, except the unguarded read. */
  lemma HandleKeepsValid(s: Scene, e: Event)
    requires Valid(s) && Handle(s, e).Done?
    ensures Valid(Handle(s, e).reaction.scene)
  {
  }
}
