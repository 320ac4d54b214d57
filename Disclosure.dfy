/**
 * The exclusive accordion over the Q&A list: a single optional index says
 * which entry is expanded, so at most one entry can be expanded at a time.
 */
module Disclosure {
  import opened Wrappers

  /** Number of entries in the Q&A list; only the count matters to the state. */
  const QaItemCount: nat := 8

  /** Entry `index` is the one shown expanded. */
  predicate IsExpanded(open: Option<nat>, index: nat)
  {
    open == Some(index)
  }

  /** The value `toggleQuestion(index)` writes: collapse if already open, else open it. */
  function Toggle(open: Option<nat>, index: nat): (r: Option<nat>)
    ensures IsExpanded(open, index) ==> r == None
    ensures !IsExpanded(open, index) ==> IsExpanded(r, index)
  {
    if open == Some(index) then None else Some(index)
  }

  /**
   * Toggling the same entry twice restores the previous state exactly when
   * nothing else was open before; if another entry was open, the first
   * toggle closed it and the second leaves everything collapsed.
   */
  lemma ToggleTwice(open: Option<nat>, index: nat)
    ensures Toggle(Toggle(open, index), index) == open <==> (open == None || open == Some(index))
    ensures open.Some? && open.value != index ==> Toggle(Toggle(open, index), index) == None
  {
  }

  /** Exclusivity: no two distinct entries are ever both expanded. */
  lemma AtMostOneExpanded(open: Option<nat>, j: nat, k: nat)
    requires IsExpanded(open, j) && IsExpanded(open, k)
    ensures j == k
  {
  }

  /**
   * Opening one entry while another is open closes the other in the same
   * step: afterwards exactly `index` is expanded, or nothing is.
   */
  lemma ToggleExpandsOnlyTarget(open: Option<nat>, index: nat, other: nat)
    requires other != index
    ensures !IsExpanded(Toggle(open, index), other)
    ensures IsExpanded(Toggle(open, index), index) <==> !IsExpanded(open, index)
  {
  }

  /** Toggling keeps the expanded index inside the Q&A list. */
  lemma ToggleInRange(open: Option<nat>, index: nat)
    requires open.Some? ==> open.value < QaItemCount
    requires index < QaItemCount
    ensures Toggle(open, index).Some? ==> Toggle(open, index).value < QaItemCount
  {
  }
}
