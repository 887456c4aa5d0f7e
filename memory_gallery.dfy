/** The memory gallery stage: cards revealed one by one, completion 1.5 s
    after the reveal list reaches the number of memories. */
module Gallery {
  import opened Common
  import RevealGate

  const COMPLETE_MS: nat := 1500

  /** The gallery: the configured memory ids, the `revealedIds` list and the
      completion timers it has set. */
  class MemoryGallery {
    const memoryIds: seq<int>
    var revealedIds: seq<int>
    var pending: seq<nat>
    var completions: nat

    function Snapshot(): RevealGate.State
      reads this
    {
      RevealGate.State(revealedIds, pending, completions)
    }

    constructor (memoryIds: seq<int>)
      ensures this.memoryIds == memoryIds && Snapshot() == RevealGate.Start([])
    {
      this.memoryIds := memoryIds;
      revealedIds, pending, completions := [], [], 0;
    }

    /** `handleReveal(id)`: the list updater, without a duplicate check. */
    method HandleReveal(id: int)
      modifies this
      ensures Snapshot() == RevealGate.Append(old(Snapshot()), id, |memoryIds|, COMPLETE_MS)
    {
      var newIds := revealedIds + [id];
      if |newIds| == |memoryIds| {
        pending := pending + [COMPLETE_MS];
      }
      revealedIds := newIds;
    }

    /** A click on the card of memory `id`: `!isRevealed && onReveal(id)`. */
    method ClickCard(id: int)
      modifies this
      ensures Snapshot() == RevealGate.Click(old(Snapshot()), id, |memoryIds|, COMPLETE_MS)
    {
      if !IsRevealed(id) {
        HandleReveal(id);
      }
    }

    method FireCompletion(k: nat)
      requires k < |pending|
      modifies this
      ensures Snapshot() == RevealGate.FireCompletion(old(Snapshot()), k)
    {
      pending := Without(pending, k);
      completions := completions + 1;
    }

    /** `revealedIds.includes(memory.id)`, the card's `isRevealed` prop. */
    predicate IsRevealed(id: int)
      reads this
    {
      RevealGate.IsActed(Snapshot(), id)
    }

    /** The progress bar's fraction (`None` stands for NaN with no memories). */
    function Progress(): (p: Option<real>)
      reads this
      ensures RevealGate.Inv(Snapshot(), memoryIds) && NoDupes(memoryIds) && |memoryIds| >= 1
              ==> p.Some? && 0.0 <= p.value <= 1.0 && (p.value == 1.0 <==> ShowsCompletionMessage())
    {
      RevealGate.ProgressInUnitInterval(Snapshot(), memoryIds);
      RevealGate.Progress(Snapshot(), |memoryIds|)
    }

    predicate ShowsCompletionMessage()
      reads this
    {
      RevealGate.ShowsCompletionMessage(Snapshot(), |memoryIds|)
    }
  }

  /** The placeholder (gradient and heart) is drawn unless the image has
      loaded without error. */
  predicate ShowsPlaceholder(imageLoaded: bool, imageError: bool)
  {
    !imageLoaded || imageError
  }

  /** The image is used as background only once loaded and error-free. */
  predicate UsesImage(imageLoaded: bool, imageError: bool)
  {
    imageLoaded && !imageError
  }

  /** Exactly one of placeholder and image is drawn, whatever the flags. */
  lemma PlaceholderOrImage(imageLoaded: bool, imageError: bool)
    ensures ShowsPlaceholder(imageLoaded, imageError) != UsesImage(imageLoaded, imageError)
  {
  }

  /** A card's image-loading flags, set by the hidden image's events. */
  class MemoryCard {
    var imageLoaded: bool
    var imageError: bool

    constructor ()
      ensures !imageLoaded && !imageError && ShowsPlaceholder(imageLoaded, imageError)
    {
      imageLoaded, imageError := false, false;
    }

    method OnLoad()
      modifies this
      ensures imageLoaded && imageError == old(imageError)
      ensures UsesImage(imageLoaded, imageError) <==> !imageError
    {
      imageLoaded := true;
    }

    /** An error is never cleared: the card keeps its placeholder for good. */
    method OnError()
      modifies this
      ensures imageError && imageLoaded == old(imageLoaded)
      ensures ShowsPlaceholder(imageLoaded, imageError)
    {
      imageError := true;
    }
  }
}
