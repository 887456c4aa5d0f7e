# Valentine story: a Dafny model of its stage logic

The application is a single-page story in six stages: entry, heart taps,
memory gallery, love timeline, final reveal and celebration. Each stage view
decides when it is done and calls back into the stage controller. An
ambient particle field is drawn behind all stages. This project models the
sequential logic under the markup:

- the stage controller and the callback wiring (`Stages`), and the
  celebration's floating-hearts table (`Celebration`);
- the heart-tap counter with its unlock latch and its timers (`HeartTaps`);
- the append-only "acted-upon ids" gate shared by the memory gallery, the
  love notes and the timeline (`RevealGate`), and the three components built
  on it (`Gallery`, `Notes`, `Timeline`);
- the final reveal's timer chain, its "No" dodge and its "Yes" latch
  (`Reveal`);
- the particle count, seeding, per-frame move-and-wrap loop, dark palette
  and mouse normalisation (`Ambient`).

Components whose state the source updates step by step are classes. The
heart, gallery, notes, timeline and reveal classes have a `Snapshot()` that
packs their fields into a value of a pure `State` datatype. Each of their
methods promises that the new snapshot is a pure step function of the old
one, and the properties are proved as lemmas about those step functions.
`Stages.App`, `Gallery.MemoryCard` and `Ambient.AmbientBackground` state
their new fields directly in their methods' contracts.

Every `setTimeout` becomes an entry in an explicit list of pending timers,
recording its delay and what it does. A `Fire(k)` step runs any one pending
timer, so the proofs hold for every firing order. `Math.random()` values and
`Date.now()` are parameters: each random value `r` is assumed to satisfy
`0 <= r < 1`. Window sizes and mouse coordinates are parameters too.

Behaviours of the code that the model follows as written:

- After a frame, particles lie in the closed box `[0,width] x [0,height]`,
  not a half-open one. The wrap assigns exactly `width`/`height` to
  coordinates that went below zero.
- Resizing does not re-seed the particles. Only a change of the `stage` prop
  re-runs the seeding effect.
- `goToStage` accepts any stage: no guard rejects a jump to a non-adjacent
  stage. A session never goes back as long as each callback fires while the
  stage is its own view's stage or already its target
  (`Stages.OnTimeSessionNeverGoesBack`). A late callback at its target stage
  repeats the move and changes nothing. The model does not compare timer
  delays, so it also admits a heart completion firing at TIMELINE, which
  would send the session back to MEMORY (`Stages.StaleCallbackMovesBackward`).
  With the source's delays that run cannot happen. Write t5 for the instant
  of the fifth tap. Every later tap comes before the unlock at t5 + 1.5 s,
  so every heart completion is due by t5 + 5 s. MEMORY is entered no earlier
  than t5 + 3.5 s (the 1.5 s unlock plus the 2 s completion). The heart
  view's 0.8 s exit fade and the gallery's 1.5 s wait after its last reveal
  then put TIMELINE no earlier than t5 + 5.8 s, after the last heart
  completion.
- The heart stage compares against the literal 5, not the number of
  affirmations. Its only guard is `isUnlocked`, and that flag is set 1.5 s
  after the fifth tap. So every tap from the sixth on that comes before the
  unlock schedules one more `onComplete`. There is no synchronous "already
  completed" latch.
- The "No" hover's message timer is never reset. An earlier hover's timer
  hides the message even if a later hover has shown it again.
- The love-notes view is not mounted by the controller. Its gating is
  modelled on its own.

## Model

| member | source | states |
|---|---|---|
| `Stages.StagesAreOneToSix` | src/App.jsx:13-20 | The six stage constants are distinct and equal 1..6 in order; a number is a stage iff it lies in 1..6. |
| `Stages.App.constructor` | src/App.jsx:23 | The session starts at ENTRY. |
| `Stages.App.GoToStage` | src/App.jsx:25-27 | The current stage becomes exactly the given value. |
| `Stages.MountedViews` | src/App.jsx:36-73 | One view is mounted at each stage value; none at any other number. |
| `Stages.OneViewPerStage` | src/App.jsx:36-73 | At each stage value the single mounted view is the view of that stage; at any other number none is. |
| `Stages.EachViewAtItsStage` | src/App.jsx:36-73 | Each view is mounted, alone, at its own stage. |
| `Stages.CallbackTargetsNextStage` | src/App.jsx:36-73 | A view's callback targets the stage right after its own. Only CELEBRATION has no callback. |
| `Stages.CallbackTarget` | src/App.jsx:39-67 | The stage each view's callback passes to `goToStage`; the celebration view gets none (its meaning is stated by `CallbackTargetsNextStage`). |
| `Stages.App.InvokeCallback` | src/App.jsx:36-73 | Invoking a view's callback sets the stage to that callback's target, whatever the stage was. |
| `Stages.TimelySessionMovesForward` | src/App.jsx:36-73 | If every callback fires while its own stage is current, the i-th stage of the run is start + i, and the run never passes CELEBRATION. |
| `Stages.TimelySessionIsIncreasing` | src/App.jsx:36-73 | Such a run has strictly increasing stages. |
| `Stages.StaleCallbackMovesBackward` | src/App.jsx:43-48 | `goToStage` has no guard: a heart callback invoked at TIMELINE sets the stage back to MEMORY. That run is neither timely nor on time, and the source's delays rule it out, which the model does not compare. |
| `Stages.OnTimeSessionNeverGoesBack` | src/App.jsx:25-67 | If every callback fires while the stage is its own view's stage or already its target, each callback moves the stage on by one or leaves it, and the stages along the run never decrease. |
| `Stages.LateCallbackAtTargetIsHarmless` | src/App.jsx:43-55 | A heart completion firing while MEMORY is current leaves the stage at MEMORY; that run is not timely but is on time. |
| `Celebration.FMod` | src/App.jsx:85-87 | JavaScript `%` on non-negative numbers: the result is in [0, m) and equals x when x < m. |
| `Celebration.FloatingHeartsTable` | src/App.jsx:82-90 | Twelve hearts with ids 0..11. Durations are in 6..9 and sizes in {1, 1.5, 2}. No `% 100` or `% 5` wrap ever applies. |
| `Celebration.MakeHeart` | src/App.jsx:83-90 | One floating heart from its index, with the five `%` expressions of the source (their values are stated by `FloatingHeartsTable`). |
| `Celebration.FloatingHearts` | src/App.jsx:82-90 | The twelve hearts of the table, indices 0..11 (see `FloatingHeartsTable`). |
| `HeartTaps.Tap` | src/components/HeartAffirmation.jsx:12-35 | The tap handler as a step of the state: ignored while unlocked, otherwise a count, an affirmation, a ripple with its timer and, from the fifth tap, an unlock timer (stated by `AcceptedTap` and `TapEventual`). |
| `HeartTaps.Fire` | src/components/HeartAffirmation.jsx:24-33 | One pending timer fires: a ripple removal, the unlock with its completion timer, or one `onComplete` call (stated by `RippleTimerRemovesItsId` and `FireKeepsEventual`). |
| `HeartTaps.Dots` | src/components/HeartAffirmation.jsx:80-85 | The five progress dots as lit flags (their shape is stated by `DotsArePrefix`). |
| `HeartTaps.TapWhileUnlockedIsNoOp` | src/components/HeartAffirmation.jsx:13 | A tap while unlocked changes no state and schedules no timer. |
| `HeartTaps.AcceptedTap` | src/components/HeartAffirmation.jsx:15-34 | An accepted tap adds one to the count and shows the affirmation at the clamped index, which is always an affirmation when there is at least one. It appends one ripple with its removal timer, schedules an unlock iff the new count is at least 5, and keeps earlier timers. |
| `HeartTaps.AffirmationIndexInRange` | src/components/HeartAffirmation.jsx:19 | With at least one affirmation the index is in range. Taps 1..len use indices 0..len-1, and later taps use the last index. |
| `HeartTaps.RippleTimerRemovesItsId` | src/components/HeartAffirmation.jsx:22-26 | A ripple timer removes its own id and keeps every other ripple with its multiplicity. |
| `HeartTaps.FireKeepsEventual` | src/components/HeartAffirmation.jsx:24-33 | Firing any timer leaves the eventual number of `onComplete` calls unchanged, so firing order does not matter. |
| `HeartTaps.TapEventual` | src/components/HeartAffirmation.jsx:13-34 | A tap adds one eventual completion iff it is accepted and its new count is at least 5. |
| `HeartTaps.TapsFromInitial` | src/components/HeartAffirmation.jsx:12-35 | After n quick taps from mount: count n, ripples exactly the tap instants, the affirmation for tap n, and max(0, n-4) eventual completions. |
| `HeartTaps.FiveTapsCompleteOnce` | src/components/HeartAffirmation.jsx:29-33 | Five quick taps complete once. A sixth tap before the unlock makes it twice. |
| `HeartTaps.FiveTapsShowInOrder` | src/components/HeartAffirmation.jsx:19 | With five affirmations, tap j shows affirmation j-1, in order. |
| `HeartTaps.DotsArePrefix` | src/components/HeartAffirmation.jsx:80-85 | The lit dots are a prefix of length min(tapCount, 5) of the five dots. |
| `HeartTaps.HeartAffirmation.constructor` | src/components/HeartAffirmation.jsx:7-10 | Mount: no taps, nothing shown, no ripples, locked, no timers. |
| `HeartTaps.HeartAffirmation.HandleHeartTap` | src/components/HeartAffirmation.jsx:12-35 | The handler's new state is the tap step of the old one. |
| `HeartTaps.HeartAffirmation.FireTimer` | src/components/HeartAffirmation.jsx:24-33 | A timer firing gives the fire step of the old state: ripple removal, unlock plus completion timer, or one `onComplete`. |
| `HeartTaps.HeartAffirmation.LitDots` | src/components/HeartAffirmation.jsx:80-85 | The dots drawn for the current count: min(tapCount, 5) lit ones followed by the unlit ones. |
| `RevealGate.Append` | src/components/MemoryGallery.jsx:170-175 | The list updater: append the id, and schedule completion when the new length equals the item count (stated by `AppendGrows`). |
| `RevealGate.Click` | src/components/MemoryGallery.jsx:53 | A click behind the `!isRevealed` guard (stated by `ClickGuard`). |
| `RevealGate.Progress` | src/components/MemoryGallery.jsx:179 | The acted-upon count over the item count, undefined with no items (stated by `ProgressInUnitInterval`). |
| `RevealGate.AppendGrows` | src/components/MemoryGallery.jsx:170-175 | The updater appends one id and keeps the earlier entries. It schedules completion iff the new length equals the item count. |
| `RevealGate.AppendKeepsDuplicates` | src/components/MemoryGallery.jsx:170-175 | The updater itself does not de-duplicate: appending a present id leaves a duplicate. |
| `RevealGate.ClickGuard` | src/components/MemoryGallery.jsx:53 | Clicking an acted-upon item changes nothing. After any click, the acted-upon items are the old ones plus the clicked one. |
| `RevealGate.StartInv` | src/components/MemoryGallery.jsx:167 | The empty start satisfies the gate invariant. |
| `RevealGate.ClickKeepsInv` | src/components/MemoryGallery.jsx:169-177 | A guarded click on a configured item keeps the invariant: no duplicates, only configured ids, one completion iff full. |
| `RevealGate.FireKeepsInv` | src/components/MemoryGallery.jsx:173 | A completion timer firing keeps the invariant. |
| `RevealGate.CompletionExactlyOnce` | src/components/MemoryGallery.jsx:172-174 | Under the invariant at most one completion is scheduled, and one is iff every item has been acted upon. The message shows iff the same holds. |
| `RevealGate.ProgressInUnitInterval` | src/components/MemoryGallery.jsx:179 | Under the invariant the progress lies in [0, 1], and it is 1 iff the completion message shows. |
| `RevealGate.ClicksKeepInv` | src/components/MemoryGallery.jsx:169-177 | Any run of guarded clicks keeps the invariant. The acted-upon set becomes the start's set plus the clicked ids. |
| `RevealGate.AllItemsScheduleCompletionOnce` | src/components/MemoryGallery.jsx:172-174 | From empty, clicks in any order and with repeats schedule completion once iff every item was clicked, otherwise never. |
| `Gallery.MemoryGallery.constructor` | src/components/MemoryGallery.jsx:167 | Mount: nothing revealed, no timer. |
| `Gallery.MemoryGallery.HandleReveal` | src/components/MemoryGallery.jsx:169-177 | `handleReveal` is the gate's unguarded append with the 1500 ms delay. |
| `Gallery.MemoryGallery.ClickCard` | src/components/MemoryGallery.jsx:53 | A card click is the gate's guarded click. |
| `Gallery.MemoryGallery.FireCompletion` | src/components/MemoryGallery.jsx:173 | A completion timer calls `onComplete` once. |
| `Gallery.MemoryGallery.Progress` | src/components/MemoryGallery.jsx:179 | While the gate invariant holds over distinct memories, the progress is a number in [0, 1], equal to 1 iff the message shows. |
| `Gallery.PlaceholderOrImage` | src/components/MemoryGallery.jsx:76-89 | Exactly one of placeholder and image is drawn, for every pair of flags. |
| `Gallery.MemoryCard.constructor` | src/components/MemoryGallery.jsx:10-11 | A card starts unloaded, without error, showing the placeholder. |
| `Gallery.MemoryCard.OnLoad` | src/components/MemoryGallery.jsx:68 | Loading sets the loaded flag. The image is used iff no error was reported. |
| `Gallery.MemoryCard.OnError` | src/components/MemoryGallery.jsx:69 | An error sets the error flag, and the placeholder stays for good. |
| `Notes.LoveNotes.constructor` | src/components/LoveNotes.jsx:138 | Mount: nothing opened, no timer. |
| `Notes.LoveNotes.HandleOpen` | src/components/LoveNotes.jsx:140-148 | `handleOpen` is the gate's unguarded append with the 2000 ms delay. |
| `Notes.LoveNotes.ClickEnvelope` | src/components/LoveNotes.jsx:25 | An envelope click is the gate's guarded click. |
| `Notes.LoveNotes.FireCompletion` | src/components/LoveNotes.jsx:144 | A completion timer calls `onComplete` once. |
| `Notes.LoveNotes.Progress` | src/components/LoveNotes.jsx:150 | While the gate invariant holds over distinct notes, the progress is in [0, 1], equal to 1 iff the message shows. |
| `Notes.ColourIndex` | src/components/LoveNotes.jsx:17 | The colour index is always one of the six schemes, and the first six cards use schemes 0..5. |
| `Notes.OpenOrderScenario` | src/components/LoveNotes.jsx:143-145 | Opening the six notes in the order 3,1,2,6,4,5 schedules nothing for the first five opens and one completion after the sixth. |
| `Timeline.EventIds` | src/components/LoveTimeline.jsx:4-35 | The five event ids are distinct and are 1..5. |
| `Timeline.EventClick` | src/components/LoveTimeline.jsx:112-123 | The click handler as a step: the event becomes active and is viewed through the gate (stated by `ClickEffect` and `ClickKeepsInv`). |
| `Timeline.Dot` | src/components/LoveTimeline.jsx:192-195 | The dot's colour from the viewed list and the active id (stated by `DotColourMeaning`). |
| `Timeline.Progress` | src/components/LoveTimeline.jsx:140 | The viewed count over five (stated by `InvConsequences`). |
| `Timeline.InitialInv` | src/components/LoveTimeline.jsx:108-109 | Mount: event 1 is active and the only one viewed, nothing is scheduled, and the invariant holds. |
| `Timeline.ClickEffect` | src/components/LoveTimeline.jsx:112-123 | A click always makes its event active. On a viewed event the viewed list is unchanged; otherwise the id is appended once. |
| `Timeline.ClickKeepsInv` | src/components/LoveTimeline.jsx:112-123 | Clicking an event keeps the invariant: viewed ids distinct and configured, one completion iff all viewed, active event viewed. |
| `Timeline.FireKeepsInv` | src/components/LoveTimeline.jsx:120 | A completion timer firing keeps the invariant. |
| `Timeline.InvConsequences` | src/components/LoveTimeline.jsx:140 | Under the invariant at most one completion is scheduled, and one iff all five events are viewed. The progress lies in [0, 1] and is 1 iff the message shows. |
| `Timeline.DotColourMeaning` | src/components/LoveTimeline.jsx:192-195 | A dot is coloured "viewed" iff its event was viewed. It has the darker tone iff its event is also active. |
| `Timeline.SessionIsGateRun` | src/components/LoveTimeline.jsx:112-123 | A session's viewed list is the gate's run of guarded clicks. The active event is the last one clicked. |
| `Timeline.SessionKeepsInv` | src/components/LoveTimeline.jsx:112-123 | Any run of clicks keeps the invariant and adds exactly the clicked events to the viewed set. |
| `Timeline.SessionCompletesOnceFrom` | src/components/LoveTimeline.jsx:112-123 | From any state keeping the invariant, a run of clicks has scheduled completion once iff the earlier viewed events and the clicked ones make up all five, otherwise never. |
| `Timeline.SessionCompletesOnce` | src/components/LoveTimeline.jsx:119-121 | From mount, in any order and with repeats, completion is scheduled once iff events 2..5 were all clicked, otherwise never. |
| `Timeline.LoveTimeline.constructor` | src/components/LoveTimeline.jsx:108-109 | Mount state: active 1, viewed [1]. |
| `Timeline.LoveTimeline.HandleEventClick` | src/components/LoveTimeline.jsx:112-123 | The handler's new state is the click step of the old state. |
| `Timeline.LoveTimeline.FireCompletion` | src/components/LoveTimeline.jsx:120 | A completion timer calls `onComplete` once. |
| `Reveal.Fire` | src/components/FinalReveal.jsx:21-35 | One pending timer fires: the next line with the line effect's re-run, the question with its buttons timer, the buttons, the message hide, or `onYes` (stated by `FireKeepsInv` and `FireAdvancesPhase`). |
| `Reveal.MountChain` | src/components/FinalReveal.jsx:21-35 | From mount, with only its own timers firing, one timer is pending at each step: four 1800 ms line timers, then the 1200 ms question timer, then the 1000 ms buttons timer, then none. |
| `Reveal.MountChainInv` | src/components/FinalReveal.jsx:21-35 | Every step of that chain satisfies the invariant. |
| `Reveal.MountChainShows` | src/components/FinalReveal.jsx:122-197 | Along the chain the phase is the step number, the first n lines show until the question replaces them, and the buttons show at the end. |
| `Reveal.NoHover` | src/components/FinalReveal.jsx:38-45 | The hover as a step: a new offset from two random values, the message, and its hide timer (stated by `NoHoverEffect`). |
| `Reveal.Yes` | src/components/FinalReveal.jsx:48-60 | "Yes" as a step: answered, thirty particles, and the `onYes` timer (stated by `YesEffect`). |
| `Reveal.DisplayedLines` | src/components/FinalReveal.jsx:122 | The lines on screen (stated by `InvConsequences` and `NextLineShowsNextLine`). |
| `Reveal.QuestionVisible` | src/components/FinalReveal.jsx:147 | The question shows while `showQuestion && !answered` (used by `InvConsequences`). |
| `Reveal.ButtonsVisible` | src/components/FinalReveal.jsx:197 | The buttons show while `showButtons && !answered` (used by `InvConsequences`). |
| `Reveal.InitialInv` | src/components/FinalReveal.jsx:12-18 | Mount satisfies the invariant, shows no line, and is at phase 0. |
| `Reveal.FireKeepsInv` | src/components/FinalReveal.jsx:21-35 | Any timer firing keeps the invariant. The line counter never passes the number of lines. There is one timer per pending step of the chain. |
| `Reveal.NoHoverKeepsInv` | src/components/FinalReveal.jsx:38-45 | A "No" hover keeps the invariant. |
| `Reveal.YesKeepsInv` | src/components/FinalReveal.jsx:48-60 | "Yes" clicked while the buttons show keeps the invariant. |
| `Reveal.InvConsequences` | src/components/FinalReveal.jsx:122-197 | Under the invariant: at most the lines; the question only after all lines; the buttons only with it; exactly the first `currentLine` lines shown before the question; `onYes` at most once and only after "Yes". |
| `Reveal.FireAdvancesPhase` | src/components/FinalReveal.jsx:21-35 | A timer moves the reveal on by exactly one step or not at all. Until the buttons show, some pending timer moves it on. |
| `Reveal.NextLineShowsNextLine` | src/components/FinalReveal.jsx:122 | A line timer adds exactly the next line to those shown and keeps the earlier ones. |
| `Reveal.QuestionReplacesLines` | src/components/FinalReveal.jsx:27-33 | The question timer fires only once all lines are shown. It hides them, shows the question and schedules exactly one buttons timer. |
| `Reveal.NoHoverEffect` | src/components/FinalReveal.jsx:38-45 | The new offset depends only on the two random values (it overwrites) and lies in [-150, 150) on each axis. The hover shows the message, schedules one hide timer and changes nothing else. |
| `Reveal.EarlierHideClearsLaterMessage` | src/components/FinalReveal.jsx:43-44 | After two hovers, the first hover's timer hides the message while the second hover's timer is still pending. |
| `Reveal.YesEffect` | src/components/FinalReveal.jsx:48-59 | "Yes" latches the answer and makes 30 particles with ids 0..29, x in [0, 100) and delay in [0, 0.5). It schedules `onYes` once, hides the question and buttons, and leaves the sequence alone. |
| `Reveal.AnsweredIsLatched` | src/components/FinalReveal.jsx:38-60 | Only "Yes" answers: a timer firing or a hover leaves `answered` as it was, and "Yes" sets it, so once given the answer stays. |
| `Reveal.FinalReveal.constructor` | src/components/FinalReveal.jsx:12-35 | Mount: the initial state after the line effect's first run. |
| `Reveal.FinalReveal.FireTimer` | src/components/FinalReveal.jsx:21-35 | A timer firing gives the fire step of the old state. |
| `Reveal.FinalReveal.HandleNoHover` | src/components/FinalReveal.jsx:38-45 | The handler's new state is the hover step of the old one. |
| `Reveal.FinalReveal.HandleYes` | src/components/FinalReveal.jsx:48-60 | The handler's new state is the "Yes" step of the old one. |
| `Ambient.ParticleCount` | src/components/AmbientBackground.jsx:43 | The count is at most 30 and fits the area budget. It is the largest count that does, unless capped at 30. |
| `Ambient.ParticleCountMonotone` | src/components/AmbientBackground.jsx:43 | A larger window never gets fewer particles. |
| `Ambient.Seed` | src/components/AmbientBackground.jsx:44-52 | A new particle lies in the box; x in [0,w) and y in [0,h) for a non-empty window; size in [1,3); speeds in [-0.15,0.15); opacity in [0.1,0.4); phase in [0,2π). |
| `Ambient.Seeds` | src/components/AmbientBackground.jsx:44-52 | The field has the requested number of particles, all inside the box. |
| `Ambient.Wrap` | src/components/AmbientBackground.jsx:65-68 | A wrapped coordinate lies in [0, bound]. It is unchanged when already there, bound when it went below zero, 0 when it went past bound. |
| `Ambient.WrapIdempotent` | src/components/AmbientBackground.jsx:65-68 | Wrapping twice is wrapping once. |
| `Ambient.Move` | src/components/AmbientBackground.jsx:58-68 | A moved particle lies in the closed box for any speed and prior position. Size, speed and opacity are kept, and the phase grows by 0.01. |
| `Ambient.MoveOrWrap` | src/components/AmbientBackground.jsx:60-68 | A particle that stays in the box moves by exactly its speed; one that leaves re-enters on the opposite edge. |
| `Ambient.MoveAll` | src/components/AmbientBackground.jsx:58-62 | A frame keeps the number of particles. |
| `Ambient.FrameProperties` | src/components/AmbientBackground.jsx:58-68 | After a frame, every particle is in the box with its size, speed and opacity kept and its phase advanced. |
| `Ambient.FrameIsPointwise` | src/components/AmbientBackground.jsx:58-68 | Each particle's result depends on that particle alone. |
| `Ambient.IsDark` | src/components/AmbientBackground.jsx:80 | `stage === 5` (its meaning is stated by `DarkOnlyOnReveal`). |
| `Ambient.DarkOnlyOnReveal` | src/components/AmbientBackground.jsx:80 | The dark palette is used exactly at stage 5, the stage where the final reveal is mounted. |
| `Ambient.Ratio` | src/components/AmbientBackground.jsx:13-16 | The mouse fraction is undefined exactly for an empty window. Inside the window it lies in [0, 1]. |
| `Ambient.AmbientBackground.constructor` | src/components/AmbientBackground.jsx:6-52 | Mount: mouse centred, and a fresh particle array seeded for the window size. |
| `Ambient.AmbientBackground.Animate` | src/components/AmbientBackground.jsx:58-68 | The in-place loop leaves the array equal to the frame function applied to its old contents. |
| `Ambient.AmbientBackground.Resize` | src/components/AmbientBackground.jsx:32-37 | Only the size changes; the particles stay as they are. |
| `Ambient.AmbientBackground.SetStage` | src/components/AmbientBackground.jsx:24-103 | A new stage re-reads the size and re-seeds a fresh array. The same stage changes nothing. |
| `Ambient.AmbientBackground.MouseMove` | src/components/AmbientBackground.jsx:12-17 | The mouse position becomes the two window fractions, and nothing else changes. |

## Left out

- Markup, styling and animation props (springs, easing, `AnimatePresence`, blur, gradients): presentation only.
- Canvas drawing and the `sin`-based pulse opacity in `AmbientBackground.jsx`: foreign drawing calls and floating-point trigonometry.
- Real time: delays are recorded but never compared. Any pending timer may fire next, and `requestAnimationFrame` becomes one `Animate` call per frame. Listener teardown and timer clearing on unmount are not modelled.
- The memory card's tilt maths and the timeline's scroll-centring: DOM geometry in floating point.
- `src/components/CinematicEntry.jsx`: markup that passes `onOpen` through. It appears only as a view whose callback targets HEART.
- `src/components/MemoryGallery.jsx` as written cannot load: line 5 reads
  `config.memoryGallery` when the module is imported, `src/config.js` defines
  no `memoryGallery`, and so the import throws a `TypeError` (line 166 would
  throw again at render). Since `src/App.jsx` imports the gallery, the
  application as written does not start. The model assumes a configuration
  that defines `memoryGallery.memories`, and takes their ids as the
  parameter `memoryIds`.
- `src/config.js`: static content, used only through its list lengths. Affirmations, memories and notes are parameters of the model.
- React scheduling: every handler is assumed to see the state committed by the previous event. Updater functions are assumed to run once (in development builds React may re-run them, which in the gallery and notes would schedule the completion twice).
- Floating-point rounding: coordinates, offsets and fractions are exact reals. The floating-hearts values and the wraps are exact rational arithmetic.
- `Gallery.MemoryGallery.Progress`: the range is promised only while the gate invariant holds over distinct memory ids, as the source's own use implies. With no memories the value is `None`, standing for NaN.
- `Notes.LoveNotes.Progress`: the same condition as the gallery's progress.
- `Stages.App.InvokeCallback`: requires that the view has a callback, because the celebration view receives none.
- `Reveal.YesKeepsInv`: assumes "Yes" is clicked only while the buttons are on screen. The handler itself has no guard, so a second click in the same frame would schedule `onYes` twice.
