/** The completion gate shared by the memory gallery, the love notes and the
    timeline: an append-only list of the ids acted upon, a click guard in
    front of it, and a completion timer scheduled when the list's length
    reaches the number of items. */
module RevealGate {
  import opened Common

  /** The acted-upon ids, the delays of the completion timers still pending,
      and how many times `onComplete` has been called. */
  datatype State = State(acted: seq<int>, pending: seq<nat>, completions: nat)

  /** On mount: the list starts as `seeded`, no timer is pending. */
  function Start(seeded: seq<int>): State
  {
    State(seeded, [], 0)
  }

  /** The list updater: append `id` (no duplicate check) and, when the new
      length equals the item count `n`, schedule completion after `delayMs`. */
  function Append(st: State, id: int, n: nat, delayMs: nat): State
  {
    var ids := st.acted + [id];
    st.(acted := ids, pending := if |ids| == n then st.pending + [delayMs] else st.pending)
  }

  /** A click on the item `id`: ignored when the item is already acted upon
      (`!isActed && onAct(id)`), otherwise appended. */
  function Click(st: State, id: int, n: nat, delayMs: nat): State
  {
    if id in st.acted then st else Append(st, id, n, delayMs)
  }

  /** The `k`-th pending completion timer fires and calls `onComplete`. */
  function FireCompletion(st: State, k: nat): State
    requires k < |st.pending|
  {
    st.(pending := Without(st.pending, k), completions := st.completions + 1)
  }

  /** Whether item `id` is shown as acted upon (`ids.includes(id)`). */
  predicate IsActed(st: State, id: int)
  {
    id in st.acted
  }

  /** `acted.length / n`; with no items JavaScript yields NaN, here `None`. */
  function Progress(st: State, n: nat): Option<real>
  {
    if n == 0 then None else Some(|st.acted| as real / n as real)
  }

  /** The completion message is shown while the lengths are equal. */
  predicate ShowsCompletionMessage(st: State, n: nat)
  {
    |st.acted| == n
  }

  /** Completion timers scheduled so far, fired or not. */
  function Scheduled(st: State): nat
  {
    |st.pending| + st.completions
  }

  /** Clicks one after another on the items `ids`. */
  function Clicks(st: State, ids: seq<int>, n: nat, delayMs: nat): State
    decreases |ids|
  {
    if ids == [] then st
    else Click(Clicks(st, ids[..|ids| - 1], n, delayMs), ids[|ids| - 1], n, delayMs)
  }

  /** The append grows the list by exactly one, keeps the earlier entries, and
      schedules completion exactly when the new length equals `n`. */
  lemma AppendGrows(st: State, id: int, n: nat, delayMs: nat)
    ensures var r := Append(st, id, n, delayMs);
      && |r.acted| == |st.acted| + 1 && r.acted[..|st.acted|] == st.acted && r.acted[|st.acted|] == id
      && (r.pending == st.pending + [delayMs] <==> |st.acted| + 1 == n)
      && (r.pending != st.pending + [delayMs] ==> r.pending == st.pending)
      && r.completions == st.completions
  {
  }

  /** The updater itself does not de-duplicate: appending an id that is
      already present leaves a duplicate in the list. */
  lemma AppendKeepsDuplicates(st: State, id: int, n: nat, delayMs: nat)
    requires id in st.acted
    ensures !NoDupes(Append(st, id, n, delayMs).acted)
  {
    var r := Append(st, id, n, delayMs).acted;
    var i :| 0 <= i < |st.acted| && st.acted[i] == id;
    assert r[i] == r[|st.acted|];
  }

  /** Clicking an acted-upon item changes nothing (the guard); clicking any
      item marks it acted upon and leaves the other items as they were. */
  lemma ClickGuard(st: State, id: int, n: nat, delayMs: nat)
    ensures id in st.acted ==> Click(st, id, n, delayMs) == st
    ensures forall x :: IsActed(Click(st, id, n, delayMs), x) <==> IsActed(st, x) || x == id
  {
  }

  /** The gate's invariant over the configured item ids `items`: no id twice,
      only configured ids, and one completion scheduled exactly when the list
      is full. */
  predicate Inv(st: State, items: seq<int>)
  {
    && NoDupes(st.acted)
    && Elems(st.acted) <= Elems(items)
    && Scheduled(st) == (if |st.acted| == |items| then 1 else 0)
  }

  /** The empty start satisfies the invariant whenever there is an item. */
  lemma StartInv(items: seq<int>)
    requires |items| >= 1
    ensures Inv(Start([]), items)
  {
  }

  /** A guarded click on a configured item keeps the invariant. */
  lemma ClickKeepsInv(st: State, items: seq<int>, id: int, delayMs: nat)
    requires NoDupes(items) && id in items && Inv(st, items)
    ensures Inv(Click(st, id, |items|, delayMs), items)
  {
    if id !in st.acted {
      var r := Append(st, id, |items|, delayMs);
      assert Elems(r.acted) == Elems(st.acted) + {id};
      assert NoDupes(r.acted);
      DistinctSubset(r.acted, items);
    }
  }

  /** A completion timer firing keeps the invariant. */
  lemma FireKeepsInv(st: State, items: seq<int>, k: nat)
    requires k < |st.pending| && Inv(st, items)
    ensures Inv(FireCompletion(st, k), items)
  {
  }

  /** Under the invariant at most one completion is ever scheduled, and one
      is exactly when every configured item has been acted upon, in whatever
      order. */
  lemma CompletionExactlyOnce(st: State, items: seq<int>)
    requires NoDupes(items) && Inv(st, items)
    ensures Scheduled(st) <= 1
    ensures Scheduled(st) == 1 <==> Elems(st.acted) == Elems(items)
    ensures ShowsCompletionMessage(st, |items|) <==> Elems(st.acted) == Elems(items)
  {
    DistinctSubset(st.acted, items);
  }

  /** Under the invariant the progress lies in [0, 1] and equals 1 exactly
      when the completion message is shown. */
  lemma ProgressInUnitInterval(st: State, items: seq<int>)
    ensures NoDupes(items) && |items| >= 1 && Inv(st, items) ==>
      && Progress(st, |items|).Some?
      && 0.0 <= Progress(st, |items|).value <= 1.0
      && (Progress(st, |items|).value == 1.0 <==> ShowsCompletionMessage(st, |items|))
  {
    if NoDupes(items) && |items| >= 1 && Inv(st, items) {
      DistinctSubset(st.acted, items);
      Fraction(|st.acted| as real, |items| as real);
    }
  }

  /** A share `a / n` of a non-empty whole lies in [0, 1] and is 1 exactly
      for the whole. */
  lemma Fraction(a: real, n: real)
    requires 0.0 <= a <= n && n > 0.0
    ensures 0.0 <= a / n <= 1.0
    ensures a / n == 1.0 <==> a == n
  {
    var q := a / n;
    assert q * n == a;
    assert (1.0 - q) * n == n - a;
    if q == 1.0 {
      assert a == n;
    }
    if a == n {
      assert (1.0 - q) * n == 0.0;
    }
  }

  /** Any run of guarded clicks on configured items keeps the invariant, and
      the acted-upon set is the start's plus the clicked ids. */
  lemma {:induction false} ClicksKeepInv(st: State, items: seq<int>, ids: seq<int>, delayMs: nat)
    requires NoDupes(items) && Inv(st, items)
    requires forall i :: 0 <= i < |ids| ==> ids[i] in items
    ensures Inv(Clicks(st, ids, |items|, delayMs), items)
    ensures Elems(Clicks(st, ids, |items|, delayMs).acted) == Elems(st.acted) + Elems(ids)
    decreases |ids|
  {
    if ids != [] {
      var init, last := ids[..|ids| - 1], ids[|ids| - 1];
      ClicksKeepInv(st, items, init, delayMs);
      var prev := Clicks(st, init, |items|, delayMs);
      ClickKeepsInv(prev, items, last, delayMs);
      ClickGuard(prev, last, |items|, delayMs);
      var r := Click(prev, last, |items|, delayMs);
      assert Clicks(st, ids, |items|, delayMs) == r;
      assert Elems(r.acted) == Elems(prev.acted) + {last};
      assert ids == init + [last];
      assert Elems(ids) == Elems(init) + {last};
    }
  }

  /** From an empty list, clicking configured items in any order, with
      repeats, schedules completion once exactly when every item has been
      clicked, and never more than once. */
  lemma AllItemsScheduleCompletionOnce(items: seq<int>, ids: seq<int>, delayMs: nat)
    requires NoDupes(items) && |items| >= 1
    requires forall i :: 0 <= i < |ids| ==> ids[i] in items
    ensures var r := Clicks(Start([]), ids, |items|, delayMs);
      Scheduled(r) == if Elems(ids) == Elems(items) then 1 else 0
  {
    StartInv(items);
    ClicksKeepInv(Start([]), items, ids, delayMs);
    var r := Clicks(Start([]), ids, |items|, delayMs);
    CompletionExactlyOnce(r, items);
    assert Elems(Start([]).acted) == {};
  }
}
