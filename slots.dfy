/** The nine canvas slots and the Preview search for the next populated one. */
module Slots {

  /** `canvas_list` has nine entries. */
  const SlotCount := 9

  /** The slot `d` places after `active`, going round the nine slots. */
  function SlotAfter(active: int, d: int): int {
    (active + d) % SlotCount
  }

  /** The offset `d` in [i, 9] of the first populated slot `SlotAfter(active, d)`, or 10 when
      none of them is populated: the Preview loop over `i = 1 .. 9` that stops at the first
      non-null entry. */
  function FirstPopulated(populated: seq<bool>, active: int, i: int): (d: int)
    requires |populated| == SlotCount && 1 <= i <= 10
    ensures i <= d <= 10
    ensures d <= 9 ==> populated[SlotAfter(active, d)]
    ensures forall e :: i <= e < d ==> !populated[SlotAfter(active, e)]
    decreases 10 - i
  {
    if i == 10 then 10
    else if populated[SlotAfter(active, i)] then i
    else FirstPopulated(populated, active, i + 1)
  }

  /** The scan stops at offset i exactly when the slots before it are empty and slot i
      (if i names one) is populated. */
  lemma FirstPopulatedIs(populated: seq<bool>, active: int, i: int)
    requires |populated| == SlotCount && 1 <= i <= 10
    requires forall e :: 1 <= e < i ==> !populated[SlotAfter(active, e)]
    requires i <= 9 ==> populated[SlotAfter(active, i)]
    ensures FirstPopulated(populated, active, 1) == i
  {
    var d := FirstPopulated(populated, active, 1);
  }

  /** The slot Preview advances to: the first populated one found, or `active` if none is. */
  function NextSlot(populated: seq<bool>, active: int): (r: int)
    requires |populated| == SlotCount && 0 <= active < SlotCount
    ensures 0 <= r < SlotCount
  {
    var d := FirstPopulated(populated, active, 1);
    if d == 10 then active else SlotAfter(active, d)
  }

  /** Every slot is `SlotAfter(active, d)` for some d in 1..9 (d = 9 is `active` itself). */
  lemma SlotReached(active: int, k: int)
    requires 0 <= active < SlotCount && 0 <= k < SlotCount
    ensures var d := if k > active then k - active else k - active + SlotCount;
      1 <= d <= 9 && SlotAfter(active, d) == k
  {
  }

  /** Preview advance: the result is populated whenever any slot is and is the first one
      in the scan order; with no slot populated it stays put; when the active slot is the
      only populated one it stays put too. */
  lemma NextSlotSpec(populated: seq<bool>, active: int)
    requires |populated| == SlotCount && 0 <= active < SlotCount
    ensures var r := NextSlot(populated, active);
      ((exists k :: 0 <= k < SlotCount && populated[k]) ==> populated[r])
      && ((forall k :: 0 <= k < SlotCount ==> !populated[k]) ==> r == active)
      && (populated[active] && (forall k :: 0 <= k < SlotCount && k != active ==> !populated[k]) ==> r == active)
    ensures (exists k :: 0 <= k < SlotCount && populated[k]) ==>
      exists d :: 1 <= d <= 9 && NextSlot(populated, active) == SlotAfter(active, d)
        && forall e :: 1 <= e < d ==> !populated[SlotAfter(active, e)]
  {
    var d := FirstPopulated(populated, active, 1);
    if k :| 0 <= k < SlotCount && populated[k] {
      SlotReached(active, k);
      assert d <= 9 && NextSlot(populated, active) == SlotAfter(active, d);
    }
    if populated[active] && (forall k :: 0 <= k < SlotCount && k != active ==> !populated[k]) {
      SlotReached(active, active);
      if d < 9 {
        assert false;
      }
    }
  }

  /** The number of populated slots. */
  function CountPopulated(populated: seq<bool>): (n: nat)
    ensures n <= |populated|
  {
    if populated == [] then 0 else (if populated[0] then 1 else 0) + CountPopulated(populated[1..])
  }

  /** Populating slot k adds one canvas when it was empty and none when it was not. */
  lemma {:induction false} PopulateCount(populated: seq<bool>, k: int)
    requires 0 <= k < |populated|
    ensures CountPopulated(populated[k := true]) == CountPopulated(populated) + (if populated[k] then 0 else 1)
  {
    if k > 0 {
      PopulateCount(populated[1..], k - 1);
      assert populated[k := true][1..] == populated[1..][k - 1 := true];
    } else {
      assert populated[k := true][1..] == populated[1..];
    }
  }
}
