/** The love-timeline stage: five events, the first already viewed; a click
    makes an event active and views it, and completion is due 2 s after the
    viewed list reaches the number of events. */
module Timeline {
  import opened Common
  import RevealGate

  /** The ids of the five timeline events, in display order. */
  const EVENT_IDS: seq<int> := [1, 2, 3, 4, 5]
  const COMPLETE_MS: nat := 2000

  /** The five ids are distinct and are the numbers 1..5. */
  lemma EventIds()
    ensures NoDupes(EVENT_IDS) && Elems(EVENT_IDS) == {1, 2, 3, 4, 5}
  {
  }

  /** The active event and the viewed-ids gate (list, pending completion
      timers, completions so far). */
  datatype State = State(activeId: int, viewed: RevealGate.State)

  /** On mount: event 1 is active and already viewed. */
  function Initial(): State
  {
    State(1, RevealGate.Start([1]))
  }

  /** `handleEventClick(id)`: `id` becomes active; an id not yet viewed is
      appended, and completion is scheduled when the new list is full. */
  function EventClick(st: State, id: int): State
  {
    State(id, RevealGate.Click(st.viewed, id, |EVENT_IDS|, COMPLETE_MS))
  }

  /** The `k`-th pending completion timer fires. */
  function Fire(st: State, k: nat): State
    requires k < |st.viewed.pending|
  {
    st.(viewed := RevealGate.FireCompletion(st.viewed, k))
  }

  /** `viewedIds.length / timelineEvents.length`. */
  function Progress(st: State): real
  {
    |st.viewed.acted| as real / |EVENT_IDS| as real
  }

  predicate ShowsCompletionMessage(st: State)
  {
    RevealGate.ShowsCompletionMessage(st.viewed, |EVENT_IDS|)
  }

  /** The colour of an event's dot. */
  datatype DotColour = Unviewed | Viewed | ViewedActive

  function Dot(st: State, id: int): DotColour
  {
    if id in st.viewed.acted then (if st.activeId == id then ViewedActive else Viewed)
    else Unviewed
  }

  /** A dot is coloured as viewed iff its event is in the viewed list, and in
      the darker tone iff that event is also the active one. */
  lemma DotColourMeaning(st: State, id: int)
    ensures Dot(st, id) != Unviewed <==> id in st.viewed.acted
    ensures Dot(st, id) == ViewedActive <==> id in st.viewed.acted && st.activeId == id
  {
  }

  /** A click always makes the clicked event active; clicking an event that
      is already viewed changes nothing else (the handler's own de-duplication);
      otherwise the id is appended exactly once at the end. */
  lemma ClickEffect(st: State, id: int)
    ensures EventClick(st, id).activeId == id
    ensures id in st.viewed.acted ==> EventClick(st, id).viewed == st.viewed
    ensures id !in st.viewed.acted ==> EventClick(st, id).viewed.acted == st.viewed.acted + [id]
    ensures forall x :: x in EventClick(st, id).viewed.acted <==> x in st.viewed.acted || x == id
  {
    RevealGate.ClickGuard(st.viewed, id, |EVENT_IDS|, COMPLETE_MS);
  }

  /** The stage's invariant: the gate invariant over the event ids, and the
      active event is one of the viewed events. */
  predicate Inv(st: State)
  {
    RevealGate.Inv(st.viewed, EVENT_IDS) && st.activeId in st.viewed.acted
  }

  /** The initial state has event 1 active and viewed, nothing scheduled. */
  lemma InitialInv()
    ensures Inv(Initial())
    ensures Initial().activeId == 1 && Initial().viewed.acted == [1]
    ensures RevealGate.Scheduled(Initial().viewed) == 0
  {
  }

  /** Clicking a configured event keeps the invariant. */
  lemma ClickKeepsInv(st: State, id: int)
    requires Inv(st) && id in EVENT_IDS
    ensures Inv(EventClick(st, id))
  {
    RevealGate.ClickKeepsInv(st.viewed, EVENT_IDS, id, COMPLETE_MS);
    RevealGate.ClickGuard(st.viewed, id, |EVENT_IDS|, COMPLETE_MS);
  }

  /** A completion timer firing keeps the invariant. */
  lemma FireKeepsInv(st: State, k: nat)
    requires Inv(st) && k < |st.viewed.pending|
    ensures Inv(Fire(st, k))
  {
    RevealGate.FireKeepsInv(st.viewed, EVENT_IDS, k);
  }

  /** Under the invariant: no id viewed twice, at most one completion ever
      scheduled, and one exactly when all five events have been viewed; the
      progress lies in [0, 1] and is 1 exactly while the completion message
      is shown. */
  lemma InvConsequences(st: State)
    requires Inv(st)
    ensures NoDupes(st.viewed.acted)
    ensures RevealGate.Scheduled(st.viewed) <= 1
    ensures RevealGate.Scheduled(st.viewed) == 1 <==> Elems(st.viewed.acted) == Elems(EVENT_IDS)
    ensures 0.0 <= Progress(st) <= 1.0
    ensures Progress(st) == 1.0 <==> ShowsCompletionMessage(st)
    ensures ShowsCompletionMessage(st) <==> Elems(st.viewed.acted) == Elems(EVENT_IDS)
  {
    RevealGate.CompletionExactlyOnce(st.viewed, EVENT_IDS);
    EventIds();
    RevealGate.ProgressInUnitInterval(st.viewed, EVENT_IDS);
  }

  /** The clicks of a session, one after another, from `st`. */
  function Session(st: State, ids: seq<int>): State
    decreases |ids|
  {
    if ids == [] then st else EventClick(Session(st, ids[..|ids| - 1]), ids[|ids| - 1])
  }

  /** A session's viewed list is the gate's run of guarded clicks, and the
      active event is the last one clicked. */
  lemma {:induction false} SessionIsGateRun(st: State, ids: seq<int>)
    ensures Session(st, ids).viewed == RevealGate.Clicks(st.viewed, ids, |EVENT_IDS|, COMPLETE_MS)
    ensures Session(st, ids).activeId == if ids == [] then st.activeId else ids[|ids| - 1]
    decreases |ids|
  {
    if ids != [] {
      SessionIsGateRun(st, ids[..|ids| - 1]);
    }
  }

  /** Any run of clicks on configured events keeps the invariant, and adds
      exactly the clicked events to the viewed ones. */
  lemma SessionKeepsInv(st: State, ids: seq<int>)
    requires Inv(st)
    requires forall i :: 0 <= i < |ids| ==> ids[i] in EVENT_IDS
    ensures Inv(Session(st, ids))
    ensures Elems(Session(st, ids).viewed.acted) == Elems(st.viewed.acted) + Elems(ids)
  {
    EventIds();
    SessionIsGateRun(st, ids);
    RevealGate.ClicksKeepInv(st.viewed, EVENT_IDS, ids, COMPLETE_MS);
    var r := Session(st, ids);
    assert r.activeId in Elems(r.viewed.acted) by {
      if ids != [] {
        assert ids[|ids| - 1] in Elems(ids);
      } else {
        assert st.activeId in Elems(st.viewed.acted);
      }
    }
  }

  /** From any state that keeps the invariant, a run of clicks on configured
      events has scheduled completion once exactly when the events viewed
      before and the events clicked make up all five, and never more than
      once. */
  lemma SessionCompletesOnceFrom(st: State, ids: seq<int>)
    requires Inv(st)
    requires forall i :: 0 <= i < |ids| ==> ids[i] in EVENT_IDS
    ensures RevealGate.Scheduled(Session(st, ids).viewed)
            == if Elems(st.viewed.acted) + Elems(ids) == {1, 2, 3, 4, 5} then 1 else 0
  {
    SessionKeepsInv(st, ids);
    EventIds();
    RevealGate.CompletionExactlyOnce(Session(st, ids).viewed, EVENT_IDS);
  }

  /** So from mount such a run schedules completion once exactly when events
      2..5 have all been clicked (event 1 is viewed from the start), in any
      order and with repeats, and never more than once. */
  lemma SessionCompletesOnce(ids: seq<int>)
    requires forall i :: 0 <= i < |ids| ==> ids[i] in EVENT_IDS
    ensures RevealGate.Scheduled(Session(Initial(), ids).viewed) == if {2, 3, 4, 5} <= Elems(ids) then 1 else 0
  {
    InitialInv();
    SessionCompletesOnceFrom(Initial(), ids);
    assert Elems(Initial().viewed.acted) == {1};
    assert Elems(ids) <= {1, 2, 3, 4, 5} by { EventIds(); }
    AllViewedIff(Elems(ids));
  }

  /** Event 1 plus the clicked events make up all five exactly when events
      2..5 have all been clicked. */
  lemma AllViewedIff(clicked: set<int>)
    requires clicked <= {1, 2, 3, 4, 5}
    ensures {1} + clicked == {1, 2, 3, 4, 5} <==> {2, 3, 4, 5} <= clicked
  {
  }

  /** The component: active id, viewed list and the completion timers. */
  class LoveTimeline {
    var activeId: int
    var viewedIds: seq<int>
    var pending: seq<nat>
    var completions: nat

    function Snapshot(): State
      reads this
    {
      State(activeId, RevealGate.State(viewedIds, pending, completions))
    }

    constructor ()
      ensures Snapshot() == Initial()
    {
      activeId, viewedIds, pending, completions := 1, [1], [], 0;
    }

    method HandleEventClick(id: int)
      modifies this
      ensures Snapshot() == EventClick(old(Snapshot()), id)
    {
      activeId := id;
      if id !in viewedIds {
        var newViewedIds := viewedIds + [id];
        viewedIds := newViewedIds;
        if |newViewedIds| == |EVENT_IDS| {
          pending := pending + [COMPLETE_MS];
        }
      }
    }

    method FireCompletion(k: nat)
      requires k < |pending|
      modifies this
      ensures Snapshot() == Fire(old(Snapshot()), k)
    {
      pending := Without(pending, k);
      completions := completions + 1;
    }
  }
}
