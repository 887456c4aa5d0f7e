/** The love-notes stage (not mounted by the application): envelopes opened
    one by one, completion 2 s after the opened list reaches the number of
    notes. */
module Notes {
  import opened Common
  import RevealGate

  const COMPLETE_MS: nat := 2000
  /** Number of envelope colour schemes. */
  const ENVELOPE_COLOURS: nat := 6

  /** The component: the configured note ids, the `openedIds` list and the
      completion timers it has set. */
  class LoveNotes {
    const noteIds: seq<int>
    var openedIds: seq<int>
    var pending: seq<nat>
    var completions: nat

    function Snapshot(): RevealGate.State
      reads this
    {
      RevealGate.State(openedIds, pending, completions)
    }

    constructor (noteIds: seq<int>)
      ensures this.noteIds == noteIds && Snapshot() == RevealGate.Start([])
    {
      this.noteIds := noteIds;
      openedIds, pending, completions := [], [], 0;
    }

    /** `handleOpen(id)`: the list updater, without a duplicate check. */
    method HandleOpen(id: int)
      modifies this
      ensures Snapshot() == RevealGate.Append(old(Snapshot()), id, |noteIds|, COMPLETE_MS)
    {
      var newIds := openedIds + [id];
      if |newIds| == |noteIds| {
        pending := pending + [COMPLETE_MS];
      }
      openedIds := newIds;
    }

    /** A click on the envelope of note `id`: `!isOpened && onOpen(id)`. */
    method ClickEnvelope(id: int)
      modifies this
      ensures Snapshot() == RevealGate.Click(old(Snapshot()), id, |noteIds|, COMPLETE_MS)
    {
      if !IsOpened(id) {
        HandleOpen(id);
      }
    }

    method FireCompletion(k: nat)
      requires k < |pending|
      modifies this
      ensures Snapshot() == RevealGate.FireCompletion(old(Snapshot()), k)
    {
      pending := Without(pending, k);
      completions := completions + 1;
    }

    /** `openedIds.includes(note.id)`, the envelope's `isOpened` prop. */
    predicate IsOpened(id: int)
      reads this
    {
      RevealGate.IsActed(Snapshot(), id)
    }

    /** The progress bar's fraction (`None` stands for NaN with no notes). */
    function Progress(): (p: Option<real>)
      reads this
      ensures RevealGate.Inv(Snapshot(), noteIds) && NoDupes(noteIds) && |noteIds| >= 1
              ==> p.Some? && 0.0 <= p.value <= 1.0 && (p.value == 1.0 <==> ShowsCompletionMessage())
    {
      RevealGate.ProgressInUnitInterval(Snapshot(), noteIds);
      RevealGate.Progress(Snapshot(), |noteIds|)
    }

    predicate ShowsCompletionMessage()
      reads this
    {
      RevealGate.ShowsCompletionMessage(Snapshot(), |noteIds|)
    }
  }

  /** `index % envelopeColors.length`: always a valid colour scheme, and the
      schemes repeat every six cards. */
  function ColourIndex(index: nat): (c: nat)
    ensures c < ENVELOPE_COLOURS
    ensures index < ENVELOPE_COLOURS ==> c == index
  {
    index % ENVELOPE_COLOURS
  }

  /** The configured notes: ids 1..6. */
  const NOTE_IDS: seq<int> := [1, 2, 3, 4, 5, 6]

  /** The six notes opened in the order 3, 1, 2, 6, 4, 5: no completion is
      scheduled during the first five opens and exactly one after the sixth,
      although the opening order is not the configured order. */
  lemma OpenOrderScenario()
    ensures forall j :: 0 <= j < 6 ==>
      RevealGate.Scheduled(RevealGate.Clicks(RevealGate.Start([]), [3, 1, 2, 6, 4, 5][..j], |NOTE_IDS|, COMPLETE_MS)) == 0
    ensures RevealGate.Scheduled(RevealGate.Clicks(RevealGate.Start([]), [3, 1, 2, 6, 4, 5], |NOTE_IDS|, COMPLETE_MS)) == 1
  {
    var order := [3, 1, 2, 6, 4, 5];
    forall j | 0 <= j < 6
      ensures RevealGate.Scheduled(RevealGate.Clicks(RevealGate.Start([]), order[..j], |NOTE_IDS|, COMPLETE_MS)) == 0
    {
      var prefix := order[..j];
      RevealGate.AllItemsScheduleCompletionOnce(NOTE_IDS, prefix, COMPLETE_MS);
      assert 5 !in prefix by {
        forall i | 0 <= i < j ensures prefix[i] != 5 {
          assert prefix[i] == order[i];
        }
      }
      assert 5 in Elems(NOTE_IDS) && 5 !in Elems(prefix);
    }
    RevealGate.AllItemsScheduleCompletionOnce(NOTE_IDS, order, COMPLETE_MS);
    assert Elems(order) == Elems(NOTE_IDS) by {
      assert forall x :: x in order <==> x in NOTE_IDS;
    }
  }
}
