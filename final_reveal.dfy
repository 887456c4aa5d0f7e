/** The final-reveal stage: four lines revealed one by one by a timer chain,
    then the question, then the Yes/No buttons; "No" dodges, "Yes" latches
    the answer, releases a burst of particles and schedules the stage advance. */
module Reveal {
  import opened Common

  /** The four lines, in order. */
  const REVEAL_LINES: seq<string> := ["I don't just love you.", "I choose you.", "Every day.", "Again."]
  const LINE_COUNT: nat := 4

  const LINE_MS: nat := 1800
  const QUESTION_MS: nat := 1200
  const BUTTONS_MS: nat := 1000
  const MESSAGE_MS: nat := 1500
  const YES_MS: nat := 2500
  /** `maxOffset`: the No button dodges at most this far along each axis. */
  const MAX_OFFSET: real := 150.0
  const BURST_COUNT: nat := 30

  /** What a pending `setTimeout` callback does when it fires. */
  datatype Action =
    | NextLine       // setCurrentLine(prev => prev + 1)
    | ShowQuestion   // setShowQuestion(true) and schedule ShowButtons
    | ShowButtons    // setShowButtons(true)
    | HideMessage    // setShowPlayfulMessage(false)
    | CallOnYes      // onYes()

  datatype Timer = Timer(delayMs: nat, action: Action)

  /** The No button's offset from its resting place. */
  datatype Offset = Offset(x: real, y: real)

  /** One celebration particle: horizontal position in percent, delay in s. */
  datatype Burst = Burst(id: nat, x: real, delay: real)

  datatype State = State(
    currentLine: nat,
    showQuestion: bool,
    showButtons: bool,
    offset: Offset,
    showPlayfulMessage: bool,
    answered: bool,
    particles: seq<Burst>,
    pending: seq<Timer>,
    yesCalls: nat)

  /** The timer the line effect sets for a given `currentLine`: the next line
      while lines remain, otherwise the question. */
  function LineEffect(currentLine: nat): Timer
  {
    if currentLine < LINE_COUNT then Timer(LINE_MS, NextLine) else Timer(QUESTION_MS, ShowQuestion)
  }

  /** On mount: nothing shown, and the effect has run once for line 0. */
  function Initial(): State
  {
    State(0, false, false, Offset(0.0, 0.0), false, false, [], [LineEffect(0)], 0)
  }

  /** The `k`-th pending timer fires. A new `currentLine` re-runs the line
      effect, whose cleanup clears the timer that has just fired. */
  function Fire(st: State, k: nat): State
    requires k < |st.pending|
  {
    var rest := Without(st.pending, k);
    match st.pending[k].action
    case NextLine =>
      var line := st.currentLine + 1;
      st.(currentLine := line, pending := rest + [LineEffect(line)])
    case ShowQuestion => st.(showQuestion := true, pending := rest + [Timer(BUTTONS_MS, ShowButtons)])
    case ShowButtons => st.(showButtons := true, pending := rest)
    case HideMessage => st.(showPlayfulMessage := false, pending := rest)
    case CallOnYes => st.(yesCalls := st.yesCalls + 1, pending := rest)
  }

  /** `(Math.random() - 0.5) * maxOffset * 2` for a random value `r`. */
  function Dodge(r: real): real
  {
    (r - 0.5) * MAX_OFFSET * 2.0
  }

  /** `handleNoHover` with the two random values it draws. */
  function NoHover(st: State, r1: real, r2: real): State
  {
    st.(offset := Offset(Dodge(r1), Dodge(r2)),
        showPlayfulMessage := true,
        pending := st.pending + [Timer(MESSAGE_MS, HideMessage)])
  }

  /** `Array.from({ length: 30 }, ...)`: each particle draws its `x`, then its
      `delay`. */
  function Bursts(rand: seq<real>): seq<Burst>
    requires |rand| == 2 * BURST_COUNT
  {
    seq(BURST_COUNT, i requires 0 <= i < BURST_COUNT => Burst(i, rand[2 * i] * 100.0, rand[2 * i + 1] * 0.5))
  }

  /** `handleYes` with the sixty random values it draws. */
  function Yes(st: State, rand: seq<real>): State
    requires |rand| == 2 * BURST_COUNT
  {
    st.(answered := true, particles := Bursts(rand), pending := st.pending + [Timer(YES_MS, CallOnYes)])
  }

  /** The lines on screen: the first `currentLine` ones until the question
      replaces them. */
  function DisplayedLines(st: State): seq<string>
  {
    if st.showQuestion then [] else REVEAL_LINES[..if st.currentLine <= LINE_COUNT then st.currentLine else LINE_COUNT]
  }

  predicate QuestionVisible(st: State)
  {
    st.showQuestion && !st.answered
  }

  predicate ButtonsVisible(st: State)
  {
    st.showButtons && !st.answered
  }

  /** How far the reveal sequence has got: the lines shown, plus one for the
      question and one for the buttons. */
  function Phase(st: State): nat
  {
    st.currentLine + (if st.showQuestion then 1 else 0) + (if st.showButtons then 1 else 0)
  }

  /** The actions of the pending timers, in scheduling order. */
  function Actions(pending: seq<Timer>): seq<Action>
  {
    seq(|pending|, i requires 0 <= i < |pending| => pending[i].action)
  }

  /** How many pending timers will perform action `a`. */
  function Pending(pending: seq<Timer>, a: Action): nat
  {
    Count(Actions(pending), a)
  }

  lemma PendingAppend(pending: seq<Timer>, t: Timer, a: Action)
    ensures Pending(pending + [t], a) == Pending(pending, a) + (if t.action == a then 1 else 0)
  {
    assert Actions(pending + [t]) == Actions(pending) + [t.action];
    CountAppend(Actions(pending), [t.action], a);
    assert [t.action][1..] == [];
  }

  lemma PendingWithout(pending: seq<Timer>, k: nat, a: Action)
    requires k < |pending|
    ensures Pending(Without(pending, k), a) == Pending(pending, a) - (if pending[k].action == a then 1 else 0)
  {
    var s := Actions(pending);
    assert Actions(Without(pending, k)) == Without(s, k);
    CountRemoveAt(s, k, a);
  }

  /** Some pending timer performs action `a` exactly when one is counted. */
  lemma PendingSome(pending: seq<Timer>, a: Action)
    ensures Pending(pending, a) > 0 <==> exists k :: 0 <= k < |pending| && pending[k].action == a
  {
    var s := Actions(pending);
    if Pending(pending, a) > 0 {
      var k :| 0 <= k < |s| && s[k] == a;
      assert pending[k].action == a;
    } else {
      forall k | 0 <= k < |pending| ensures pending[k].action != a {
        assert s[k] == pending[k].action;
      }
    }
  }

  predicate OffsetInRange(o: Offset)
  {
    -MAX_OFFSET <= o.x < MAX_OFFSET && -MAX_OFFSET <= o.y < MAX_OFFSET
  }

  /** Particle `i` has id `i`, `x` in [0, 100) and `delay` in [0, 0.5). */
  predicate BurstsInRange(ps: seq<Burst>)
  {
    |ps| == BURST_COUNT &&
    forall i :: 0 <= i < |ps| ==> ps[i].id == i && 0.0 <= ps[i].x < 100.0 && 0.0 <= ps[i].delay < 0.5
  }

  /** The stage's invariant, for sessions in which "Yes" is only clicked
      while the buttons are on screen:
      - the line counter never passes the number of lines;
      - exactly one line-effect timer is pending while lines remain, exactly
        one question timer once they are all shown and the question is not,
        exactly one buttons timer between question and buttons;
      - the question comes only after the lines, the buttons only after it,
        the answer only after the buttons;
      - `onYes` is scheduled or called once if answered, otherwise never;
      - the offset and, once answered, the particles lie in their ranges. */
  predicate Inv(st: State)
  {
    && st.currentLine <= LINE_COUNT
    && Pending(st.pending, NextLine) == (if st.currentLine < LINE_COUNT then 1 else 0)
    && Pending(st.pending, ShowQuestion) == (if st.currentLine == LINE_COUNT && !st.showQuestion then 1 else 0)
    && Pending(st.pending, ShowButtons) == (if st.showQuestion && !st.showButtons then 1 else 0)
    && (st.showQuestion ==> st.currentLine == LINE_COUNT)
    && (st.showButtons ==> st.showQuestion)
    && (st.answered ==> st.showButtons)
    && Pending(st.pending, CallOnYes) + st.yesCalls == (if st.answered then 1 else 0)
    && OffsetInRange(st.offset)
    && (if st.answered then BurstsInRange(st.particles) else st.particles == [])
  }

  lemma InitialInv()
    ensures Inv(Initial())
    ensures Phase(Initial()) == 0 && DisplayedLines(Initial()) == []
  {
    var p := Initial().pending;
    assert Actions(p) == [NextLine];
    forall a: Action ensures Pending(p, a) == (if a == NextLine then 1 else 0) {
      assert Actions(p)[1..] == [];
    }
  }

  /** Any timer firing keeps the invariant. */
  lemma FireKeepsInv(st: State, k: nat)
    requires Inv(st) && k < |st.pending|
    ensures Inv(Fire(st, k))
  {
    var p, rest := st.pending, Without(st.pending, k);
    forall a: Action ensures Pending(rest, a) == Pending(p, a) - (if p[k].action == a then 1 else 0) {
      PendingWithout(p, k, a);
    }
    var r := Fire(st, k);
    match p[k].action
    case NextLine =>
      forall a: Action ensures Pending(r.pending, a) == Pending(rest, a) + (if LineEffect(st.currentLine + 1).action == a then 1 else 0) {
        PendingAppend(rest, LineEffect(st.currentLine + 1), a);
      }
    case ShowQuestion =>
      forall a: Action ensures Pending(r.pending, a) == Pending(rest, a) + (if a == ShowButtons then 1 else 0) {
        PendingAppend(rest, Timer(BUTTONS_MS, ShowButtons), a);
      }
    case ShowButtons =>
    case HideMessage =>
    case CallOnYes =>
  }

  /** A "No" hover keeps the invariant. */
  lemma NoHoverKeepsInv(st: State, r1: real, r2: real)
    requires Inv(st) && Randoms([r1, r2])
    ensures Inv(NoHover(st, r1, r2))
  {
    forall a: Action
      ensures Pending(NoHover(st, r1, r2).pending, a) == Pending(st.pending, a) + (if a == HideMessage then 1 else 0)
    {
      PendingAppend(st.pending, Timer(MESSAGE_MS, HideMessage), a);
    }
    NoHoverEffect(st, r1, r2);
  }

  /** "Yes", clicked while the buttons are on screen, keeps the invariant. */
  lemma YesKeepsInv(st: State, rand: seq<real>)
    requires Inv(st) && ButtonsVisible(st) && |rand| == 2 * BURST_COUNT && Randoms(rand)
    ensures Inv(Yes(st, rand))
  {
    forall a: Action
      ensures Pending(Yes(st, rand).pending, a) == Pending(st.pending, a) + (if a == CallOnYes then 1 else 0)
    {
      PendingAppend(st.pending, Timer(YES_MS, CallOnYes), a);
    }
    YesEffect(st, rand);
  }

  /** What the invariant gives: the counter stays within the lines; the
      question is only shown after every line, the buttons only with the
      question; `onYes` is called at most once, and only after "Yes". */
  lemma InvConsequences(st: State)
    requires Inv(st)
    ensures st.currentLine <= LINE_COUNT && Phase(st) <= LINE_COUNT + 2
    ensures Phase(st) == LINE_COUNT + 2 <==> st.showButtons
    ensures ButtonsVisible(st) ==> QuestionVisible(st) || st.answered
    ensures QuestionVisible(st) ==> DisplayedLines(st) == [] && st.currentLine == LINE_COUNT
    ensures !st.showQuestion ==> DisplayedLines(st) == REVEAL_LINES[..st.currentLine]
    ensures st.yesCalls <= 1 && (st.yesCalls == 1 ==> st.answered)
  {
  }

  /** The reveal sequence never stalls: until the buttons are shown, exactly
      one pending timer moves it on, and firing any timer either moves the
      phase on by exactly one or leaves it where it is. */
  lemma FireAdvancesPhase(st: State, k: nat)
    requires Inv(st) && k < |st.pending|
    ensures var a := st.pending[k].action;
      Phase(Fire(st, k)) == Phase(st) + (if a == NextLine || a == ShowQuestion || a == ShowButtons then 1 else 0)
    ensures !st.showButtons ==>
      exists j :: 0 <= j < |st.pending| && st.pending[j].action in {NextLine, ShowQuestion, ShowButtons}
  {
    if !st.showButtons {
      if st.currentLine < LINE_COUNT {
        PendingSome(st.pending, NextLine);
      } else if !st.showQuestion {
        PendingSome(st.pending, ShowQuestion);
      } else {
        PendingSome(st.pending, ShowButtons);
      }
    }
    if st.pending[k].action == ShowButtons {
      PendingSome(st.pending, ShowButtons);
    }
    if st.pending[k].action == ShowQuestion {
      PendingSome(st.pending, ShowQuestion);
    }
  }

  /** While the question is hidden, each line timer adds exactly the next line
      to those on screen and keeps the earlier ones. */
  lemma NextLineShowsNextLine(st: State, k: nat)
    requires Inv(st) && k < |st.pending| && st.pending[k].action == NextLine && !st.showQuestion
    ensures st.currentLine < LINE_COUNT
    ensures DisplayedLines(Fire(st, k)) == DisplayedLines(st) + [REVEAL_LINES[st.currentLine]]
  {
    PendingSome(st.pending, NextLine);
    assert REVEAL_LINES[..st.currentLine + 1] == REVEAL_LINES[..st.currentLine] + [REVEAL_LINES[st.currentLine]];
  }

  /** The question timer replaces the lines by the question and schedules the
      buttons. */
  lemma QuestionReplacesLines(st: State, k: nat)
    requires Inv(st) && k < |st.pending| && st.pending[k].action == ShowQuestion
    ensures st.currentLine == LINE_COUNT && !st.showQuestion
    ensures var r := Fire(st, k);
      DisplayedLines(r) == [] && r.showQuestion && !r.showButtons && Pending(r.pending, ShowButtons) == 1
  {
    PendingSome(st.pending, ShowQuestion);
    FireKeepsInv(st, k);
  }

  /** The timer chain from mount when nothing but its own timers fire: a
      single timer is pending at each step, so firing it is the only move.
      Steps 1..4 each show one more line after 1800 ms, step 5 shows the
      question after 1200 ms, step 6 the buttons after 1000 ms, and then no
      timer is left. */
  function MountChain(n: nat): (st: State)
    requires n <= LINE_COUNT + 2
    ensures st.currentLine == (if n < LINE_COUNT then n else LINE_COUNT)
    ensures st.showQuestion == (n > LINE_COUNT) && st.showButtons == (n == LINE_COUNT + 2)
    ensures n < LINE_COUNT ==> st.pending == [Timer(LINE_MS, NextLine)]
    ensures n == LINE_COUNT ==> st.pending == [Timer(QUESTION_MS, ShowQuestion)]
    ensures n == LINE_COUNT + 1 ==> st.pending == [Timer(BUTTONS_MS, ShowButtons)]
    ensures n == LINE_COUNT + 2 ==> st.pending == []
    ensures !st.answered && st.yesCalls == 0 && !st.showPlayfulMessage
    decreases n
  {
    if n == 0 then Initial() else Fire(MountChain(n - 1), 0)
  }

  /** The chain keeps the invariant at every step. */
  lemma {:induction false} MountChainInv(n: nat)
    requires n <= LINE_COUNT + 2
    ensures Inv(MountChain(n))
    decreases n
  {
    if n == 0 {
      InitialInv();
    } else {
      MountChainInv(n - 1);
      FireKeepsInv(MountChain(n - 1), 0);
    }
  }

  /** Along the chain the phase is the step number, the first `n` lines are on
      screen until the question replaces them, and the buttons are on screen
      at the end. */
  lemma MountChainShows(n: nat)
    requires n <= LINE_COUNT + 2
    ensures var st := MountChain(n);
      && Phase(st) == n
      && DisplayedLines(st) == (if n <= LINE_COUNT then REVEAL_LINES[..n] else [])
      && (QuestionVisible(st) <==> n > LINE_COUNT)
      && (ButtonsVisible(st) <==> n == LINE_COUNT + 2)
  {
  }

  /** A "No" hover moves the button to an offset that depends only on the two
      random values (it overwrites, never accumulates) and lies in
      [-150, 150) on each axis; it shows the message and schedules one timer
      to hide it; nothing else changes. */
  lemma NoHoverEffect(st: State, r1: real, r2: real)
    requires Randoms([r1, r2])
    ensures var r := NoHover(st, r1, r2);
      && OffsetInRange(r.offset)
      && (forall other: State :: NoHover(other, r1, r2).offset == r.offset)
      && r.showPlayfulMessage
      && r.pending == st.pending + [Timer(MESSAGE_MS, HideMessage)]
      && r.currentLine == st.currentLine && r.showQuestion == st.showQuestion
      && r.showButtons == st.showButtons && r.answered == st.answered
      && r.particles == st.particles && r.yesCalls == st.yesCalls
  {
    assert 0.0 <= r1 < 1.0 && 0.0 <= r2 < 1.0 by {
      assert [r1, r2][0] == r1 && [r1, r2][1] == r2;
    }
  }

  /** Hover timers are never cancelled: after two hovers, the first hover's
      timer hides the message while the second hover's timer is still
      pending. */
  lemma EarlierHideClearsLaterMessage(st: State, r1: real, r2: real, r3: real, r4: real)
    ensures var s2 := NoHover(NoHover(st, r1, r2), r3, r4);
      var k := |st.pending|;
      && k < |s2.pending| && s2.pending[k].action == HideMessage
      && s2.showPlayfulMessage
      && !Fire(s2, k).showPlayfulMessage
      && Pending(Fire(s2, k).pending, HideMessage) >= 1
  {
    var s2 := NoHover(NoHover(st, r1, r2), r3, r4);
    var k := |st.pending|;
    var r := Fire(s2, k);
    assert r.pending[|r.pending| - 1].action == HideMessage;
    PendingSome(r.pending, HideMessage);
  }

  /** "Yes" latches the answer, creates thirty particles with ids 0..29, `x` in
      [0, 100) and `delay` in [0, 0.5), and schedules `onYes` once; the
      question and the buttons leave the screen and the reveal sequence is
      not touched. */
  lemma YesEffect(st: State, rand: seq<real>)
    requires |rand| == 2 * BURST_COUNT && Randoms(rand)
    ensures var r := Yes(st, rand);
      && r.answered && BurstsInRange(r.particles)
      && r.pending == st.pending + [Timer(YES_MS, CallOnYes)]
      && !QuestionVisible(r) && !ButtonsVisible(r)
      && r.currentLine == st.currentLine && r.showQuestion == st.showQuestion && r.showButtons == st.showButtons
      && r.yesCalls == st.yesCalls
  {
    var ps := Bursts(rand);
    forall i | 0 <= i < |ps| ensures ps[i].id == i && 0.0 <= ps[i].x < 100.0 && 0.0 <= ps[i].delay < 0.5 {
      assert 0.0 <= rand[2 * i] < 1.0 && 0.0 <= rand[2 * i + 1] < 1.0;
    }
  }

  /** Only "Yes" answers: no timer and no hover sets or clears `answered`, and
      "Yes" sets it, so once given the answer stays. */
  lemma AnsweredIsLatched(st: State, k: nat, r1: real, r2: real, rand: seq<real>)
    requires |rand| == 2 * BURST_COUNT
    ensures k < |st.pending| ==> Fire(st, k).answered == st.answered
    ensures NoHover(st, r1, r2).answered == st.answered
    ensures Yes(st, rand).answered
  {
  }

  /** The component's state, its timers and its handlers. */
  class FinalReveal {
    var currentLine: nat
    var showQuestion: bool
    var showButtons: bool
    var noButtonOffset: Offset
    var showPlayfulMessage: bool
    var answered: bool
    var particles: seq<Burst>
    var pending: seq<Timer>
    var yesCalls: nat

    function Snapshot(): State
      reads this
    {
      State(currentLine, showQuestion, showButtons, noButtonOffset, showPlayfulMessage, answered, particles, pending, yesCalls)
    }

    /** Mount: initial state, then the line effect's first run. */
    constructor ()
      ensures Snapshot() == Initial()
    {
      currentLine, showQuestion, showButtons := 0, false, false;
      noButtonOffset, showPlayfulMessage, answered, particles := Offset(0.0, 0.0), false, false, [];
      pending, yesCalls := [], 0;
      new;
      pending := pending + [LineEffect(currentLine)];
    }

    /** The `k`-th pending timer fires. */
    method FireTimer(k: nat)
      requires k < |pending|
      modifies this
      ensures Snapshot() == Fire(old(Snapshot()), k)
    {
      var action := pending[k].action;
      pending := Without(pending, k);
      match action
      case NextLine =>
        currentLine := currentLine + 1;
        pending := pending + [LineEffect(currentLine)];
      case ShowQuestion =>
        showQuestion := true;
        pending := pending + [Timer(BUTTONS_MS, ShowButtons)];
      case ShowButtons =>
        showButtons := true;
      case HideMessage =>
        showPlayfulMessage := false;
      case CallOnYes =>
        yesCalls := yesCalls + 1;
    }

    /** `handleNoHover`, given the two values `Math.random()` returns. */
    method HandleNoHover(r1: real, r2: real)
      modifies this
      ensures Snapshot() == NoHover(old(Snapshot()), r1, r2)
    {
      var newX := (r1 - 0.5) * MAX_OFFSET * 2.0;
      var newY := (r2 - 0.5) * MAX_OFFSET * 2.0;
      noButtonOffset := Offset(newX, newY);
      showPlayfulMessage := true;
      pending := pending + [Timer(MESSAGE_MS, HideMessage)];
    }

    /** `handleYes`, given the sixty values `Math.random()` returns. */
    method HandleYes(rand: seq<real>)
      requires |rand| == 2 * BURST_COUNT
      modifies this
      ensures Snapshot() == Yes(old(Snapshot()), rand)
    {
      answered := true;
      particles := Bursts(rand);
      pending := pending + [Timer(YES_MS, CallOnYes)];
    }
  }
}
