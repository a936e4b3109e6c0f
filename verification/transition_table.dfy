/**
  The scene's behaviour written the other way round: as a table of
  (states, event, index guard) -> action rows, first match wins, anything
  unmatched ignored. This is the reading a designer would give of the scene,
  independent of how the handlers nest their `switch` and `if` chains; the
  lemmas below show the two agree on every valid scene.
 */
module TransitionTable {
  import opened PrologueScene

  /** The states a row applies to. */
  datatype From = In(states: set<State>) | AnyState

  /** The event a row reacts to. */
  datatype Trigger = OnTap | OnCompletion(timeline: Timeline)

  /** A condition on the index: none, some line is left, or every line has been shown. */
  datatype Guard = Always | LinesLeft | AllShown

  /** What a row does. */
  datatype Action =
    | Ignore
    | PlayAndMove(timeline: Timeline, next: State)
    | MoveTo(next: State)
    | ShowNextLine

  datatype Row = Row(from: From, on: Trigger, guard: Guard, action: Action)

  const Table: seq<Row> := [
    Row(In({StartAnimationEnd}), OnTap, Always, PlayAndMove(StartEnd, TouchIgnore)),
    Row(In({TextStartAnimation, TextStartAnimationEnd}), OnTap, Always, PlayAndMove(TextEnd, TextEndAnimation)),
    Row(In({TextEndAnimation}), OnTap, LinesLeft, ShowNextLine),
    Row(In({TextEndAnimation}), OnTap, AllShown, Ignore),
    Row(AnyState, OnCompletion(Start), Always, MoveTo(StartAnimationEnd)),
    Row(AnyState, OnCompletion(StartEnd), Always, ShowNextLine),
    Row(AnyState, OnCompletion(TextStart), Always, MoveTo(TextStartAnimationEnd)),
    Row(AnyState, OnCompletion(TextEnd), LinesLeft, ShowNextLine),
    Row(AnyState, OnCompletion(TextEnd), AllShown, Ignore)
  ]

  predicate Matches(row: Row, s: Scene, e: Event) {
    && (row.from.In? ==> s.state in row.from.states)
    && (match row.on
        case OnTap => e.Tap?
        case OnCompletion(t) => e.Finished? && e.name == Name(t))
    && (match row.guard
        case Always => true
        case LinesLeft => s.index < Count
        case AllShown => s.index == Count)
  }

  /** The action of the first row at or after `i` that matches, or `Ignore` when none does. */
  function Lookup(s: Scene, e: Event, i: nat): (a: Action)
    requires i <= |Table|
    decreases |Table| - i
  {
    if i == |Table| then Ignore
    else if Matches(Table[i], s, e) then Table[i].action
    else Lookup(s, e, i + 1)
  }

  /** The effect of an action on a scene. Showing the next line reads the list and fails past its end. */
  function Perform(a: Action, s: Scene): (o: Outcome)
    ensures a == Ignore ==> Quiet(s, o)
    ensures a.ShowNextLine? ==> (o.Done? <==> s.index < Count)
    ensures o.Done? && o.reaction.shown.Some? ==> a.ShowNextLine?
  {
    match a
    case Ignore => Done(Reaction(s, None, None))
    case PlayAndMove(t, next) => Done(Reaction(Scene(next, s.index), Some(Play(t, false)), None))
    case MoveTo(next) => Done(Reaction(Scene(next, s.index), None, None))
    case ShowNextLine =>
      if s.index < Count then
        Done(Reaction(Scene(TextStartAnimation, s.index + 1),
                      Some(Play(TextStart, s.index == 0)),
                      Some(Messages[s.index])))
      else
        OutOfRange(s.index)
  }

  /** The scene's response to an event according to the table. */
  function Reference(s: Scene, e: Event): Outcome {
    Perform(Lookup(s, e, 0), s)
  }

  /** No two rows of the table can match the same scene and event. */
  lemma TableUnambiguous(s: Scene, e: Event, j: nat, k: nat)
    requires j < k < |Table|
    requires Matches(Table[j], s, e)
    ensures !Matches(Table[k], s, e)
  {
  }

  /** A tap does what the first four rows say. */
  lemma TapFollowsTable(s: Scene)
    requires Valid(s)
    ensures Handle(s, Tap) == Reference(s, Tap)
  {
  }

  /** A completion report does what the last five rows say. */
  lemma CompletionFollowsTable(s: Scene, name: string)
    ensures Handle(s, Finished(name)) == Reference(s, Finished(name))
  {
  }

  /** On every valid scene, the handlers do exactly what the table says. */
  lemma HandlersFollowTable(s: Scene, e: Event)
    requires Valid(s)
    ensures Handle(s, e) == Reference(s, e)
  {
    match e
    case Tap => TapFollowsTable(s);
    case Finished(name) => CompletionFollowsTable(s, name);
  }

  /**
    Past the end of the list the two readings part: the tap handler guards its
    read only with an equality test, so a tap on a scene whose index is beyond
    the list reads out of range where the table would ignore it.
   */
  lemma TapBeyondEndDiffers(s: Scene)
    requires s.state == TextEndAnimation && s.index > Count
    ensures Handle(s, Tap).OutOfRange? && Quiet(s, Reference(s, Tap))
  {
  }
}
