/**
  The FAQ accordion: one open-item index for the whole list, `-1` when every
  item is closed; an item is shown open when its index equals it.
*/
module Faq {

  const NoneOpen: int := -1
  /** The first question starts open. */
  const InitiallyOpen: int := 0

  /** An item is shown open when the state holds its index. */
  predicate IsOpen(openFAQ: int, index: nat) {
    openFAQ == index
  }

  /** A click on an item: closes it if it was open, otherwise opens it alone. */
  function Toggle(openFAQ: int, index: nat): (r: int)
    ensures IsOpen(r, index) <==> !IsOpen(openFAQ, index)
    ensures forall j: nat :: j != index ==> !IsOpen(r, j)
  {
    if openFAQ == index then NoneOpen else index
  }

  /** The items of a list of `count` questions that are shown open. */
  function OpenItems(openFAQ: int, count: nat): set<nat> {
    set i: nat | i < count && IsOpen(openFAQ, i)
  }

  /** Whatever the state, at most one item is open. */
  lemma AtMostOneOpen(openFAQ: int, count: nat)
    ensures |OpenItems(openFAQ, count)| <= 1
  {
    if 0 <= openFAQ < count {
      assert OpenItems(openFAQ, count) == {openFAQ as nat};
    } else {
      assert OpenItems(openFAQ, count) == {};
    }
  }

  /** The state names no item or an item of the list. */
  predicate InRange(openFAQ: int, count: nat) {
    openFAQ == NoneOpen || 0 <= openFAQ < count
  }

  /** The state after a sequence of clicks, oldest first. */
  function AfterClicks(openFAQ: int, clicks: seq<nat>): int
    decreases clicks
  {
    if clicks == [] then openFAQ else AfterClicks(Toggle(openFAQ, clicks[0]), clicks[1..])
  }

  /** Clicks on items of the list keep the state in range, starting from the initial one. */
  lemma {:induction false} ClicksStayInRange(clicks: seq<nat>, count: nat)
    requires count > 0
    requires forall k :: 0 <= k < |clicks| ==> clicks[k] < count
    ensures InRange(AfterClicks(InitiallyOpen, clicks), count)
  {
    ClicksPreserveRange(InitiallyOpen, clicks, count);
  }

  lemma {:induction false} ClicksPreserveRange(openFAQ: int, clicks: seq<nat>, count: nat)
    requires InRange(openFAQ, count)
    requires forall k :: 0 <= k < |clicks| ==> clicks[k] < count
    ensures InRange(AfterClicks(openFAQ, clicks), count)
    decreases clicks
  {
    if clicks != [] {
      ClicksPreserveRange(Toggle(openFAQ, clicks[0]), clicks[1..], count);
    }
  }

  /** Clicking the same item twice leaves it open exactly when it was open before. */
  lemma ToggleTwice(openFAQ: int, index: nat)
    ensures IsOpen(Toggle(Toggle(openFAQ, index), index), index) <==> IsOpen(openFAQ, index)
  {
  }
}
