# Prologue scene sequencing, modelled in Dafny

This project models the sequencing logic of the Voyager prologue scene
(`PrologueScene`), the cutscene that shows seven fixed lines of text one after
another, each brought in and out by timelines authored in the scene's node graph.

The scene's state is its `_state` (one of `State_TouchIgnore`,
`State_StartAnimationEnd`, `State_TextStartAnimation`,
`State_TextStartAnimationEnd`, `State_TextEndAnimation`) and its `_messageIndex`
into the seven-line list. Two events drive it: a tap (`onTouchBegan`) and the
animation manager's report that a named timeline finished
(`completedAnimationSequenceNamed`). Every call the scene makes into the engine
is returned as data instead of being performed: which timeline is played
("Start", "StartEnd", "TextStart", "TextEnd"), whether it is the first line's
delayed entrance, and which line is put on the label.

- `prologue_scene.dfy`, module `PrologueScene`: the scene's data, the four
  `animation…` helpers, the two event handlers, and one-step properties.
  Reading the list past its end (`getObjectAtIndex` with `_messageIndex` equal
  to the count) is an explicit `OutOfRange` outcome, not a precondition.
- `transition_table.dfy`, module `TransitionTable`: the same behaviour written
  as a first-match table of (states, event, index guard) -> action rows, and
  proofs that the handlers agree with it on every scene whose index is at most
  the count.
- `animation_host.dfy`, module `AnimationHost`: the scene inside a host whose
  animation manager runs one timeline at a time and reports the completion of
  the running one. It holds the reachability invariant, runs of event
  sequences, and two concrete runs: tapping through the whole prologue, and
  entering the scene a second time.

The "StartEnd" completion calls `animationTextStart` without checking the
index (Classes/PrologueScene.cpp:189-192), unlike the tap path and the
"TextEnd" path. The model proves it is safe under this assumption: the scene
is entered once, and the host reports only the timeline it is running. Then
"StartEnd" is played only from `State_StartAnimationEnd`. That state is
reached only through the "Start" report, while the index is still 0
(`AnimationHost.StepKeepsInv`, `AnimationHost.EnteredOnce`). If the scene is
entered again after all seven lines, the read goes past the end of the list
(`AnimationHost.ReentryReadsPastEnd`).

The code has no terminal state: once every line has been shown the scene stays
in `State_TextEndAnimation` with the index equal to the count, and both the tap
and the "TextEnd" report then do nothing (`AnimationHost.Finale`,
`AnimationHost.FinaleIsQuiet`).

## Model

| member | source | states |
|---|---|---|
| PrologueScene.NameInjective | Classes/PrologueScene.cpp:185-197 | the four timeline names the completion handler compares against are pairwise distinct, so at most one branch applies to any report |
| PrologueScene.InitialIgnoresTaps | Classes/PrologueScene.cpp:17-19 | the constructed scene is in `State_TouchIgnore` at index 0, and a tap on it changes nothing |
| PrologueScene.AnimationStart | Classes/PrologueScene.cpp:124-128 | starting the opening plays "Start" without delay and leaves state, index and label unchanged |
| PrologueScene.AnimationStartEnd | Classes/PrologueScene.cpp:130-135 | moves to `State_TouchIgnore` and plays "StartEnd" without delay; index and label unchanged |
| PrologueScene.AnimationTextStart | Classes/PrologueScene.cpp:137-154 | fails exactly when the index is not below the count; otherwise shows the line at the index, plays "TextStart" delayed exactly for the first line, moves to `State_TextStartAnimation` and advances the index by one |
| PrologueScene.AnimationTextEnd | Classes/PrologueScene.cpp:155-160 | moves to `State_TextEndAnimation` and plays "TextEnd" without delay; index and label unchanged |
| PrologueScene.Touch | Classes/PrologueScene.cpp:94-122 | the tap is never claimed (false on every path); it reads out of range exactly in `State_TextEndAnimation` with the index past the count; the index moves by at most one |
| PrologueScene.Completed | Classes/PrologueScene.cpp:181-207 | a report reads out of range exactly when it names "StartEnd" and every line has been shown; the index moves by at most one |
| PrologueScene.TouchQuietIff | Classes/PrologueScene.cpp:94-122 | a tap changes nothing and plays nothing if and only if the state is `State_TouchIgnore`, or it is `State_TextEndAnimation` with every line shown |
| PrologueScene.TouchAfterOpening | Classes/PrologueScene.cpp:100-102 | a tap in `State_StartAnimationEnd` plays "StartEnd", moves to `State_TouchIgnore` and keeps the index |
| PrologueScene.TouchDuringText | Classes/PrologueScene.cpp:104-107 | a tap in `State_TextStartAnimation` or `State_TextStartAnimationEnd` plays "TextEnd", moves to `State_TextEndAnimation` and keeps the index |
| PrologueScene.TouchDuringTextEnd | Classes/PrologueScene.cpp:109-116 | in `State_TextEndAnimation` a tap is ignored when the index equals the count, and for every other index behaves exactly like `animationTextStart` (showing the next line below the count, reading out of range above it) |
| PrologueScene.TouchShowsNextIff | Classes/PrologueScene.cpp:109-116 | a tap puts a line on the label if and only if it skips the exit of a line that has a successor |
| PrologueScene.CompletedEffects | Classes/PrologueScene.cpp:181-207 | "Start" sets `State_StartAnimationEnd`, "TextStart" sets `State_TextStartAnimationEnd`, "StartEnd" shows the next line, "TextEnd" shows the next line when one is left and otherwise changes nothing, any other name changes nothing |
| PrologueScene.CompletedQuietIff | Classes/PrologueScene.cpp:181-207 | a report changes nothing if and only if it names no timeline of the scene, repeats the state it would set, or is "TextEnd" with every line shown |
| PrologueScene.HandleShowsOnlyNext | Classes/PrologueScene.cpp:137-154 | under either event, a line reaches the label only as `animationTextStart` puts it there, and when none does the index stays |
| PrologueScene.OutOfRangeIff | Classes/PrologueScene.cpp:189-202 | from an index at most the count, the only event that reads past the list is the "StartEnd" report once every line has been shown |
| PrologueScene.HandleKeepsValid | Classes/PrologueScene.cpp:109-116 | an event that does not fail keeps the index at most the count |
| TransitionTable.TableUnambiguous | Classes/PrologueScene.cpp:94-122 | no two rows of the reference table apply to the same scene and event |
| TransitionTable.TapFollowsTable | Classes/PrologueScene.cpp:94-122 | the tap handler does exactly what the table's tap rows say |
| TransitionTable.CompletionFollowsTable | Classes/PrologueScene.cpp:181-207 | on every scene, the completion handler does exactly what the table's completion rows say |
| TransitionTable.HandlersFollowTable | Classes/PrologueScene.cpp:94-122 | on every scene with index at most the count, handler and table agree for every event |
| TransitionTable.TapBeyondEndDiffers | Classes/PrologueScene.cpp:111-115 | the tap guard is an equality test, so past the count the handler reads out of range where the table ignores the tap |
| AnimationHost.Step | Classes/PrologueScene.cpp:86-92 | one host event (enter, tap, completion of the running timeline) either shows the line at the index and advances it by one, or keeps the index |
| AnimationHost.Run | Classes/PrologueScene.cpp:137-154 | over any sequence of events that does not fail, the index advances by exactly the number of lines shown |
| AnimationHost.RunShowsConsecutiveLines | Classes/PrologueScene.cpp:137-154 | over any sequence of events that does not fail, the lines shown are consecutive lines of the list, starting at the line the index pointed to |
| AnimationHost.BootInv | Classes/PrologueScene.cpp:17-25 | the constructed scene, with nothing running, satisfies the system invariant |
| AnimationHost.StepKeepsInv | Classes/PrologueScene.cpp:189-192 | every tap and completion keeps the invariant and never reads out of range; entering does too while no line has been shown |
| AnimationHost.RunKeepsInv | Classes/PrologueScene.cpp:181-207 | any run that does not enter the scene again keeps the invariant and never reads out of range |
| AnimationHost.EnteredOnce | Classes/PrologueScene.cpp:67-75 | after entering once, every sequence of taps and completions keeps the index at most seven and has shown exactly the first lines of the list, in order |
| AnimationHost.OpeningShowsFirstLine | Classes/PrologueScene.cpp:185-192 | enter, finish, tap, finish shows the first line and starts its entrance |
| AnimationHost.OneCycle | Classes/PrologueScene.cpp:193-203 | finish, tap, finish shows the next line when one is left, and otherwise brings the scene to rest |
| AnimationHost.CyclesShowRest | Classes/PrologueScene.cpp:197-207 | cycling from the k-th line shows the rest of the list and comes to rest |
| AnimationHost.TapThroughShowsAll | Classes/PrologueScene.cpp:67-75 | tapping through the whole prologue shows all seven lines in order and ends at rest |
| AnimationHost.FinaleIsQuiet | Classes/PrologueScene.cpp:109-114 | once at rest, taps and completions change nothing |
| AnimationHost.ReentryReadsPastEnd | Classes/PrologueScene.cpp:189-192 | entering again after all lines replays the opening, and the "StartEnd" report then reads the list at its length |

## Left out

- `createScene`: loading the node graph from `PrologueScene.ccbi` and registering the loader is engine I/O.
- The destructor, retain/release and `setAnimationManager`: host-framework reference counting and delegate wiring. The host model assumes the delegate is set.
- `onAssignCCBMemberVariable` and the label's `setString`: the shown line is an output value, not a UI object.
- `init`: only its seven-line list is modelled (`PrologueScene.Messages`). The failing `Layer::init()` path and the touch-mode setup are engine calls.
- `onEnterTransitionDidFinish`: modelled only as the `Enter` host event that plays "Start".
- `CCLOG` logging.
- The 0.0 and 0.3 second tween durations: modelled as the `firstDelay` flag, since floating point plays no part in the sequencing.
- Animation playback and timing: a played timeline is an emitted name. `PrologueScene.Completed` accepts any name, arbitrary reports included. `AnimationHost` assumes a manager that runs one timeline at a time, drops a timeline replaced by a newer one, and reports only the timeline that ran to its end. Chained timelines configured in the node graph are not modelled.
- The integer width of `_messageIndex`: modelled as an unbounded natural. Every run that starts from the constructed scene and enters it once keeps it at most seven (`AnimationHost.EnteredOnce`), so no wrap-around can occur.
- The header `PrologueScene.h` is not part of this model. The state names and member names come from their use in the source file.
