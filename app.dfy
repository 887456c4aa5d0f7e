/** The stage controller of the application: one stage number, overwritten by
    the callback of whichever stage view invoked it. */
module Stages {
  import opened Common

  const ENTRY: int := 1
  const HEART: int := 2
  const MEMORY: int := 3
  const TIMELINE: int := 4
  const REVEAL: int := 5
  const CELEBRATION: int := 6

  /** The stage constants in declaration order. */
  const ALL_STAGES: seq<int> := [ENTRY, HEART, MEMORY, TIMELINE, REVEAL, CELEBRATION]

  predicate IsStage(s: int)
  {
    s in ALL_STAGES
  }

  /** The stage constants are the distinct numbers 1..6, in order. */
  lemma StagesAreOneToSix()
    ensures NoDupes(ALL_STAGES)
    ensures forall i :: 0 <= i < |ALL_STAGES| ==> ALL_STAGES[i] == i + 1
    ensures forall s :: IsStage(s) <==> 1 <= s <= 6
  {
  }

  /** The stage views the controller can mount. */
  datatype View = CinematicEntry | HeartAffirmation | MemoryGallery | LoveTimeline | FinalReveal | Celebration

  /** The views whose mount condition `currentStage === X` holds, in the order
      they are written. */
  function MountedViews(stage: int): (vs: seq<View>)
    ensures IsStage(stage) ==> |vs| == 1
    ensures !IsStage(stage) ==> vs == []
  {
    (if stage == ENTRY then [CinematicEntry] else [])
    + (if stage == HEART then [HeartAffirmation] else [])
    + (if stage == MEMORY then [MemoryGallery] else [])
    + (if stage == TIMELINE then [LoveTimeline] else [])
    + (if stage == REVEAL then [FinalReveal] else [])
    + (if stage == CELEBRATION then [Celebration] else [])
  }

  /** The stage during which a view is mounted. */
  function StageOf(v: View): (s: int)
    ensures IsStage(s)
  {
    match v
    case CinematicEntry => ENTRY
    case HeartAffirmation => HEART
    case MemoryGallery => MEMORY
    case LoveTimeline => TIMELINE
    case FinalReveal => REVEAL
    case Celebration => CELEBRATION
  }

  /** Exactly one view is mounted at each stage, and it is the view whose
      stage that is; no view is mounted at any other number. */
  lemma OneViewPerStage(stage: int)
    ensures IsStage(stage) ==> exists v :: MountedViews(stage) == [v] && StageOf(v) == stage
    ensures forall v :: v in MountedViews(stage) ==> StageOf(v) == stage
  {
    if stage == ENTRY { assert MountedViews(stage) == [CinematicEntry]; }
    else if stage == HEART { assert MountedViews(stage) == [HeartAffirmation]; }
    else if stage == MEMORY { assert MountedViews(stage) == [MemoryGallery]; }
    else if stage == TIMELINE { assert MountedViews(stage) == [LoveTimeline]; }
    else if stage == REVEAL { assert MountedViews(stage) == [FinalReveal]; }
    else if stage == CELEBRATION { assert MountedViews(stage) == [Celebration]; }
    else { assert MountedViews(stage) == []; }
  }

  /** Each view is mounted, alone, at its own stage. */
  lemma EachViewAtItsStage(v: View)
    ensures MountedViews(StageOf(v)) == [v]
  {
    match v
    case CinematicEntry => assert MountedViews(ENTRY) == [CinematicEntry];
    case HeartAffirmation => assert MountedViews(HEART) == [HeartAffirmation];
    case MemoryGallery => assert MountedViews(MEMORY) == [MemoryGallery];
    case LoveTimeline => assert MountedViews(TIMELINE) == [LoveTimeline];
    case FinalReveal => assert MountedViews(REVEAL) == [FinalReveal];
    case Celebration => assert MountedViews(CELEBRATION) == [Celebration];
  }

  /** The stage each view's callback passes to `goToStage`; the celebration
      view receives no callback. */
  function CallbackTarget(v: View): Option<int>
  {
    match v
    case CinematicEntry => Some(HEART)
    case HeartAffirmation => Some(MEMORY)
    case MemoryGallery => Some(TIMELINE)
    case LoveTimeline => Some(REVEAL)
    case FinalReveal => Some(CELEBRATION)
    case Celebration => None
  }

  /** Every callback names the stage right after its own view's stage, and
      only the terminal stage has none. */
  lemma CallbackTargetsNextStage(v: View)
    ensures CallbackTarget(v).Some? <==> StageOf(v) != CELEBRATION
    ensures CallbackTarget(v).Some? ==> CallbackTarget(v).value == StageOf(v) + 1
  {
  }

  /** The stage after the callback of view `v` has been invoked from `stage`.
      `goToStage` is a plain assignment, so `stage` itself plays no part. */
  function AfterCallback(stage: int, v: View): int
  {
    match CallbackTarget(v)
    case Some(s) => s
    case None => stage
  }

  /** The stages a session passes through when the callbacks of `calls` are
      invoked one after another from `start` (including `start`). */
  function Trace(start: int, calls: seq<View>): (t: seq<int>)
    ensures |t| == |calls| + 1 && t[0] == start
    decreases |calls|
  {
    if calls == [] then [start]
    else [start] + Trace(AfterCallback(start, calls[0]), calls[1..])
  }

  /** Every invoked callback exists and is invoked while its own view is the
      mounted one. */
  predicate Timely(start: int, calls: seq<View>)
    decreases |calls|
  {
    calls == [] ||
    (CallbackTarget(calls[0]).Some? && StageOf(calls[0]) == start
     && Timely(AfterCallback(start, calls[0]), calls[1..]))
  }

  /** In a session whose callbacks fire while their own stage is current the
      stage goes up by exactly one per callback: it never decreases, never
      passes CELEBRATION, and so visits each value at most once. */
  lemma {:induction false} TimelySessionMovesForward(start: int, calls: seq<View>)
    requires Timely(start, calls)
    ensures forall i :: 0 <= i <= |calls| ==> Trace(start, calls)[i] == start + i
    ensures calls != [] ==> start + |calls| <= CELEBRATION
    decreases |calls|
  {
    if calls != [] {
      var v := calls[0];
      CallbackTargetsNextStage(v);
      var next := AfterCallback(start, v);
      assert next == start + 1;
      var t := Trace(start, calls);
      var rest := Trace(next, calls[1..]);
      assert t == [start] + rest;
      TimelySessionMovesForward(next, calls[1..]);
      forall i | 0 <= i <= |calls| ensures t[i] == start + i {
        if i > 0 { assert t[i] == rest[i - 1]; }
      }
    }
  }

  /** Hence, in such a session, the stage is strictly increasing. */
  lemma TimelySessionIsIncreasing(start: int, calls: seq<View>)
    requires Timely(start, calls)
    ensures forall i, j :: 0 <= i < j <= |calls| ==> Trace(start, calls)[i] < Trace(start, calls)[j]
  {
    TimelySessionMovesForward(start, calls);
  }

  /** Every invoked callback exists and is invoked while the stage is its own
      view's stage or already its target: a late callback that repeats the
      move just made. */
  predicate OnTime(start: int, calls: seq<View>)
    decreases |calls|
  {
    calls == [] ||
    (CallbackTarget(calls[0]).Some?
     && (StageOf(calls[0]) == start || CallbackTarget(calls[0]).value == start)
     && OnTime(AfterCallback(start, calls[0]), calls[1..]))
  }

  /** A session whose callbacks fire at their own stage or at their target
      stage never goes back: each callback moves on by one stage or leaves
      the stage as it is, so the stages along the run never decrease. */
  lemma {:induction false} OnTimeSessionNeverGoesBack(start: int, calls: seq<View>)
    requires OnTime(start, calls)
    ensures forall i :: 0 <= i < |calls| ==>
      Trace(start, calls)[i + 1] == Trace(start, calls)[i] || Trace(start, calls)[i + 1] == Trace(start, calls)[i] + 1
    ensures forall i, j :: 0 <= i <= j <= |calls| ==> Trace(start, calls)[i] <= Trace(start, calls)[j]
    decreases |calls|
  {
    if calls != [] {
      var v := calls[0];
      CallbackTargetsNextStage(v);
      var next := AfterCallback(start, v);
      assert next == start || next == start + 1;
      var t := Trace(start, calls);
      var rest := Trace(next, calls[1..]);
      assert t == [start] + rest;
      OnTimeSessionNeverGoesBack(next, calls[1..]);
      forall i | 0 <= i < |calls| ensures t[i + 1] == t[i] || t[i + 1] == t[i] + 1 {
        if i > 0 { assert t[i] == rest[i - 1] && t[i + 1] == rest[i]; }
      }
      forall i, j | 0 <= i <= j <= |calls| ensures t[i] <= t[j] {
        if i > 0 { assert t[i] == rest[i - 1] && t[j] == rest[j - 1]; }
        else if j > 0 { assert t[j] == rest[j - 1] && rest[0] <= rest[j - 1]; }
      }
    }
  }

  /** A late heart completion that fires while the gallery is already on
      screen repeats the move to MEMORY and changes nothing: the session is
      not timely, but it is on time. */
  lemma LateCallbackAtTargetIsHarmless()
    ensures Trace(MEMORY, [HeartAffirmation]) == [MEMORY, MEMORY]
    ensures !Timely(MEMORY, [HeartAffirmation]) && OnTime(MEMORY, [HeartAffirmation])
  {
  }

  /** `goToStage` itself does not keep the stage from going back: a heart
      completion invoked at TIMELINE would send the session back to MEMORY.
      The model does not compare timer delays, so it admits this run; with
      the source's delays every heart completion is due while the stage is
      still HEART or MEMORY. */
  lemma StaleCallbackMovesBackward()
    ensures var t := Trace(TIMELINE, [HeartAffirmation]); t[1] < t[0] && t[1] == MEMORY
    ensures !Timely(TIMELINE, [HeartAffirmation]) && !OnTime(TIMELINE, [HeartAffirmation])
  {
  }

  /** The controller: `currentStage` and the `goToStage` setter. */
  class App {
    var currentStage: int

    constructor ()
      ensures currentStage == ENTRY
    {
      currentStage := ENTRY;
    }

    /** `goToStage(stage)`: sets the stage to exactly `stage`. */
    method GoToStage(stage: int)
      modifies this
      ensures currentStage == stage
    {
      currentStage := stage;
    }

    /** A view's callback is invoked (the view may already be unmounted: the
        closures held by un-cancelled timers stay callable). */
    method InvokeCallback(v: View)
      requires CallbackTarget(v).Some?
      modifies this
      ensures currentStage == AfterCallback(old(currentStage), v)
    {
      GoToStage(CallbackTarget(v).value);
    }
  }
}

/** The decorative floating-hearts table of the celebration screen. */
module Celebration {

  /** JavaScript's `%` on non-negative numbers, over the reals. */
  function FMod(x: real, m: real): (r: real)
    requires x >= 0.0 && m > 0.0
    ensures 0.0 <= r < m
    ensures x < m ==> r == x
  {
    var q := (x / m).Floor as real;
    FloorBounds(x, m, q);
    x - q * m
  }

  lemma FloorBounds(x: real, m: real, q: real)
    requires x >= 0.0 && m > 0.0 && q == (x / m).Floor as real
    ensures q * m <= x < q * m + m
    ensures x < m ==> q == 0.0
  {
    var y := x / m;
    assert q <= y < q + 1.0;
    var d := y - q;
    assert 0.0 <= d < 1.0;
    assert x == q * m + d * m;
    assert d * m < m;
    if x < m {
      assert y < 1.0;
    }
  }

  /** One floating heart: position and delay in percent / seconds, duration in
      seconds, size in rem. */
  datatype Heart = Heart(id: nat, left: real, top: real, delay: real, duration: int, size: real)

  const HEART_COUNT: nat := 12

  function MakeHeart(i: nat): Heart
  {
    Heart(i,
          FMod(i as real * 8.3 + 5.0, 100.0),
          FMod(i as real * 7.7 + 10.0, 100.0),
          FMod(i as real * 0.4, 5.0),
          6 + i % 4,
          1.0 + (i % 3) as real * 0.5)
  }

  function FloatingHearts(): seq<Heart>
  {
    seq(HEART_COUNT, i requires 0 <= i => MakeHeart(i))
  }

  /** Twelve hearts with ids 0..11; durations in 6..9 s, sizes in
      {1, 1.5, 2} rem, and none of the `% 100` / `% 5` wraps ever applies. */
  lemma FloatingHeartsTable()
    ensures |FloatingHearts()| == 12
    ensures forall i :: 0 <= i < 12 ==> FloatingHearts()[i].id == i
    ensures forall i :: 0 <= i < 12 ==> 6 <= FloatingHearts()[i].duration <= 9
    ensures forall i :: 0 <= i < 12 ==> FloatingHearts()[i].size in {1.0, 1.5, 2.0}
    ensures forall i :: 0 <= i < 12 ==>
      var h := FloatingHearts()[i];
      h.left == i as real * 8.3 + 5.0 && h.top == i as real * 7.7 + 10.0 && h.delay == i as real * 0.4
  {
    forall i | 0 <= i < 12
      ensures FloatingHearts()[i].size in {1.0, 1.5, 2.0}
      ensures var h := FloatingHearts()[i];
        h.left == i as real * 8.3 + 5.0 && h.top == i as real * 7.7 + 10.0 && h.delay == i as real * 0.4
    {
      assert FloatingHearts()[i] == MakeHeart(i);
      assert i % 3 == 0 || i % 3 == 1 || i % 3 == 2;
    }
  }
}
