/** The heart-tapping stage: a tap counter, the affirmation shown for the
    latest tap, short-lived ripples, and an unlock latch that is set by a timer
    and in turn schedules the stage's completion callback. */
module HeartTaps {
  import opened Common

  /** The tap count at which unlocking is scheduled: a literal, independent of
      how many affirmations are configured. */
  const UNLOCK_THRESHOLD: nat := 5
  /** Number of progress dots drawn. */
  const DOT_COUNT: nat := 5

  const RIPPLE_MS: nat := 1000
  const UNLOCK_MS: nat := 1500
  const COMPLETE_MS: nat := 2000

  /** What a pending `setTimeout` callback does when it fires. */
  datatype Action = RemoveRipple(id: int) | Unlock | CallOnComplete
  datatype Timer = Timer(delayMs: nat, action: Action)

  /** The component's state plus its pending timers and the number of times
      `onComplete` has been called. */
  datatype State = State(tapCount: nat, currentAffirmation: Option<string>, ripples: seq<int>,
                         isUnlocked: bool, pending: seq<Timer>, completions: nat)

  /** Mounted: no taps, nothing shown (`''`), no ripples, locked, no timers. */
  function Initial(): State
  {
    State(0, None, [], false, [], 0)
  }

  /** `Math.min(newCount - 1, affirmations.length - 1)`. */
  function AffirmationIndex(newCount: int, len: int): int
  {
    if newCount - 1 <= len - 1 then newCount - 1 else len - 1
  }

  /** `affirmations[i]`; a read outside the list yields `undefined`, which
      like the initial `''` shows nothing. */
  function Lookup(affirmations: seq<string>, i: int): Option<string>
  {
    if 0 <= i < |affirmations| then Some(affirmations[i]) else None
  }

  /** `handleHeartTap`, with `Date.now()` passed in as `now`. */
  function Tap(affirmations: seq<string>, st: State, now: int): State
  {
    if st.isUnlocked then st
    else
      var newCount := st.tapCount + 1;
      st.(tapCount := newCount,
          currentAffirmation := Lookup(affirmations, AffirmationIndex(newCount, |affirmations|)),
          ripples := st.ripples + [now],
          pending := st.pending + [Timer(RIPPLE_MS, RemoveRipple(now))]
                     + (if newCount >= UNLOCK_THRESHOLD then [Timer(UNLOCK_MS, Unlock)] else []))
  }

  /** The `k`-th pending timer fires. */
  function Fire(st: State, k: nat): State
    requires k < |st.pending|
  {
    var rest := Without(st.pending, k);
    match st.pending[k].action
    case RemoveRipple(id) => st.(ripples := RemoveAll(st.ripples, id), pending := rest)
    case Unlock => st.(isUnlocked := true, pending := rest + [Timer(COMPLETE_MS, CallOnComplete)])
    case CallOnComplete => st.(pending := rest, completions := st.completions + 1)
  }

  /** A tap on an unlocked heart changes nothing and schedules nothing. */
  lemma TapWhileUnlockedIsNoOp(affirmations: seq<string>, st: State, now: int)
    requires st.isUnlocked
    ensures Tap(affirmations, st, now) == st
  {
  }

  /** An accepted tap adds exactly one to the count, shows the affirmation at
      the clamped index (always an affirmation when there is at least one),
      appends one ripple with its removal timer, and schedules an unlock
      exactly when the new count reaches the literal 5. */
  lemma AcceptedTap(affirmations: seq<string>, st: State, now: int)
    requires !st.isUnlocked
    ensures var r := Tap(affirmations, st, now);
      && r.tapCount == st.tapCount + 1
      && r.currentAffirmation == Lookup(affirmations, AffirmationIndex(st.tapCount + 1, |affirmations|))
      && r.ripples == st.ripples + [now]
      && r.pending[..|st.pending|] == st.pending
      && r.pending[|st.pending|] == Timer(RIPPLE_MS, RemoveRipple(now))
      && (|r.pending| == |st.pending| + 2 <==> st.tapCount + 1 >= UNLOCK_THRESHOLD)
      && (|r.pending| == |st.pending| + 2 ==> r.pending[|st.pending| + 1] == Timer(UNLOCK_MS, Unlock))
      && !r.isUnlocked && r.completions == st.completions
      && (|affirmations| >= 1 ==>
            var i := AffirmationIndex(st.tapCount + 1, |affirmations|);
            0 <= i < |affirmations| && r.currentAffirmation == Some(affirmations[i]))
  {
    AffirmationIndexInRange(st.tapCount + 1, |affirmations|);
  }

  /** With at least one affirmation the index is always in range: taps
      1..len show indices 0..len-1 in order, later taps repeat the last. With
      none it is -1 (nothing is shown). */
  lemma AffirmationIndexInRange(newCount: int, len: int)
    requires newCount >= 1
    ensures len >= 1 ==> 0 <= AffirmationIndex(newCount, len) < len
    ensures newCount <= len ==> AffirmationIndex(newCount, len) == newCount - 1
    ensures newCount > len ==> AffirmationIndex(newCount, len) == len - 1
  {
  }

  /** A ripple timer removes exactly its own id (every copy of it, should two
      taps share a `Date.now()` value) and keeps every other ripple. */
  lemma RippleTimerRemovesItsId(st: State, k: nat)
    requires k < |st.pending| && st.pending[k].action.RemoveRipple?
    ensures var id := st.pending[k].action.id;
      && id !in Fire(st, k).ripples
      && forall other :: other != id ==> Count(Fire(st, k).ripples, other) == Count(st.ripples, other)
  {
  }

  /** Number of pending timers that will call `onComplete` (an unlock timer
      schedules exactly one when it fires). */
  function Scheduled(pending: seq<Timer>): (n: nat)
    ensures n <= |pending|
  {
    if pending == [] then 0
    else (if pending[0].action.RemoveRipple? then 0 else 1) + Scheduled(pending[1..])
  }

  lemma {:induction false} ScheduledAppend(a: seq<Timer>, b: seq<Timer>)
    ensures Scheduled(a + b) == Scheduled(a) + Scheduled(b)
  {
    if a == [] {
      assert a + b == b;
    } else {
      assert (a + b)[1..] == a[1..] + b;
      ScheduledAppend(a[1..], b);
    }
  }

  /** The number of `onComplete` calls the state will have made once every
      pending timer has fired; with nothing scheduled it is the number made
      so far. */
  function Eventual(st: State): nat
  {
    st.completions + Scheduled(st.pending)
  }

  /** Whatever timer fires, the eventual number of completions is unchanged:
      the order in which timers fire does not matter. */
  lemma {:induction false} FireKeepsEventual(st: State, k: nat)
    requires k < |st.pending|
    ensures Eventual(Fire(st, k)) == Eventual(st)
  {
    var p := st.pending;
    assert p == p[..k] + [p[k]] + p[k + 1..];
    ScheduledAppend(p[..k] + [p[k]], p[k + 1..]);
    ScheduledAppend(p[..k], [p[k]]);
    ScheduledAppend(p[..k], p[k + 1..]);
    ScheduledAppend(Without(p, k), [Timer(COMPLETE_MS, CallOnComplete)]);
  }

  /** Each accepted tap whose new count is at least 5 adds one eventual
      completion; there is no other guard than `isUnlocked`. */
  lemma {:induction false} TapEventual(affirmations: seq<string>, st: State, now: int)
    ensures Eventual(Tap(affirmations, st, now))
            == Eventual(st) + (if !st.isUnlocked && st.tapCount + 1 >= UNLOCK_THRESHOLD then 1 else 0)
  {
    if !st.isUnlocked {
      var extra := if st.tapCount + 1 >= UNLOCK_THRESHOLD then [Timer(UNLOCK_MS, Unlock)] else [];
      ScheduledAppend(st.pending + [Timer(RIPPLE_MS, RemoveRipple(now))], extra);
      ScheduledAppend(st.pending, [Timer(RIPPLE_MS, RemoveRipple(now))]);
    }
  }

  /** Taps made one after another (no timer firing in between), at the
      instants `nows`. */
  function Taps(affirmations: seq<string>, st: State, nows: seq<int>): State
    decreases |nows|
  {
    if nows == [] then st
    else Tap(affirmations, Taps(affirmations, st, nows[..|nows| - 1]), nows[|nows| - 1])
  }

  /** From mount, n quick taps leave the count at n, show the affirmation for
      tap n, keep n ripples, and schedule max(0, n - 4) completions: one for
      five taps, and one more for every further tap before the unlock. */
  lemma {:induction false} TapsFromInitial(affirmations: seq<string>, nows: seq<int>)
    ensures var r := Taps(affirmations, Initial(), nows);
      && r.tapCount == |nows|
      && !r.isUnlocked && r.completions == 0
      && r.ripples == nows
      && (nows != [] ==> r.currentAffirmation == Lookup(affirmations, AffirmationIndex(|nows|, |affirmations|)))
      && Eventual(r) == if |nows| >= 4 then |nows| - 4 else 0
    decreases |nows|
  {
    if nows != [] {
      var init, last := nows[..|nows| - 1], nows[|nows| - 1];
      var prev := Taps(affirmations, Initial(), init);
      assert Taps(affirmations, Initial(), nows) == Tap(affirmations, prev, last);
      TapsFromInitial(affirmations, init);
      AcceptedTap(affirmations, prev, last);
      TapEventual(affirmations, prev, last);
      assert nows == init + [last];
    }
  }

  /** The scenario with five affirmations: five taps are followed by exactly
      one completion; a sixth tap before the unlock fires schedules a second
      one. */
  lemma FiveTapsCompleteOnce(affirmations: seq<string>, nows: seq<int>)
    requires |affirmations| == 5
    ensures |nows| == 5 ==> Eventual(Taps(affirmations, Initial(), nows)) == 1
    ensures |nows| == 6 ==> Eventual(Taps(affirmations, Initial(), nows)) == 2
  {
    TapsFromInitial(affirmations, nows);
  }

  /** ... and taps 1..5 show affirmations 0..4 in order, with no repeat and
      no skip. */
  lemma FiveTapsShowInOrder(affirmations: seq<string>, nows: seq<int>, j: nat)
    requires |affirmations| == 5 && 1 <= j <= |nows| && j <= 5
    ensures Taps(affirmations, Initial(), nows[..j]).currentAffirmation == Some(affirmations[j - 1])
  {
    var prefix := nows[..j];
    TapsFromInitial(affirmations, prefix);
    assert AffirmationIndex(|prefix|, |affirmations|) == j - 1;
  }

  /** The five progress dots; dot `i` is lit while `i < tapCount`. */
  function Dots(tapCount: nat): seq<bool>
  {
    seq(DOT_COUNT, i => i < tapCount)
  }

  /** The lit dots are a prefix: min(tapCount, 5) lit ones followed by unlit
      ones. */
  lemma DotsArePrefix(tapCount: nat)
    ensures var lit := if tapCount < DOT_COUNT then tapCount else DOT_COUNT;
      Dots(tapCount) == seq(lit, _ => true) + seq(DOT_COUNT - lit, _ => false)
  {
    var lit := if tapCount < DOT_COUNT then tapCount else DOT_COUNT;
    var d, e := Dots(tapCount), seq(lit, _ => true) + seq(DOT_COUNT - lit, _ => false);
    assert |d| == |e|;
    forall i | 0 <= i < |d| ensures d[i] == e[i] {
      if i < lit { assert e[i] == true; } else { assert e[i] == false; }
    }
  }

  /** The component: its React state variables and the timers it has set. */
  class HeartAffirmation {
    const affirmations: seq<string>
    var tapCount: nat
    var currentAffirmation: Option<string>
    var ripples: seq<int>
    var isUnlocked: bool
    var pending: seq<Timer>
    var completions: nat

    function Snapshot(): State
      reads this
    {
      State(tapCount, currentAffirmation, ripples, isUnlocked, pending, completions)
    }

    constructor (affirmations: seq<string>)
      ensures this.affirmations == affirmations && Snapshot() == Initial()
    {
      this.affirmations := affirmations;
      tapCount, currentAffirmation, ripples := 0, None, [];
      isUnlocked, pending, completions := false, [], 0;
    }

    method HandleHeartTap(now: int)
      modifies this
      ensures Snapshot() == Tap(affirmations, old(Snapshot()), now)
    {
      if isUnlocked {
        return;
      }
      var newCount := tapCount + 1;
      tapCount := newCount;
      currentAffirmation := Lookup(affirmations, AffirmationIndex(newCount, |affirmations|));
      ripples := ripples + [now];
      pending := pending + [Timer(RIPPLE_MS, RemoveRipple(now))];
      if newCount >= UNLOCK_THRESHOLD {
        pending := pending + [Timer(UNLOCK_MS, Unlock)];
      }
    }

    method FireTimer(k: nat)
      requires k < |pending|
      modifies this
      ensures Snapshot() == Fire(old(Snapshot()), k)
    {
      var t := pending[k];
      pending := Without(pending, k);
      match t.action {
        case RemoveRipple(id) =>
          ripples := RemoveAll(ripples, id);
        case Unlock =>
          isUnlocked := true;
          pending := pending + [Timer(COMPLETE_MS, CallOnComplete)];
        case CallOnComplete =>
          completions := completions + 1;
      }
    }

    /** The progress dots: min(tapCount, 5) lit ones, then the unlit ones. */
    function LitDots(): (d: seq<bool>)
      reads this
      ensures var lit := if tapCount < DOT_COUNT then tapCount else DOT_COUNT;
        d == seq(lit, _ => true) + seq(DOT_COUNT - lit, _ => false)
    {
      DotsArePrefix(tapCount);
      Dots(tapCount)
    }
  }
}
