/**
 The sort-order button of the movie lists (app/ui/components/ActionButtons.tsx).
 The selected order is a plain number owned by the parent screen; each press
 hands the parent the next value, and the button shows an icon for the current
 one. The intended states are the three orders below; any other number is
 possible because the parent may hold anything.
 */
module SortOrder {

  const OrderByDate: int := 1
  const OrderByRating: int := 2
  const OrderByBoth: int := 3

  const CalendarIcon: string := "calendar-outline"
  const StarIcon: string := "star-outline"
  const HalfStarIcon: string := "star-half-outline"
  const FilterIcon: string := "filter"

  /** The three orders the button is meant to cycle through. */
  predicate InCycle(s: int) {
    OrderByDate <= s <= OrderByBoth
  }

  /** `toggleOrder`: the value passed to `setIsOrdered` on a press. */
  function Toggle(s: int): (r: int)
    ensures InCycle(s) ==> InCycle(r)
    ensures r != s
  {
    if s == OrderByBoth then OrderByDate else s + 1
  }

  /** The value after `n` presses starting from `s`. */
  function Presses(s: int, n: nat): int
  {
    if n == 0 then s else Toggle(Presses(s, n - 1))
  }

  /** `getIcon`: the icon name shown for the current order. */
  function Icon(s: int): (r: string)
    ensures r == FilterIcon <==> !InCycle(s)
  {
    if s == OrderByDate then CalendarIcon
    else if s == OrderByRating then StarIcon
    else if s == OrderByBoth then HalfStarIcon
    else FilterIcon
  }

  /** The three orders are shown with three different icons, none of them the
      fallback. */
  lemma IconDistinguishesOrders(s: int, t: int)
    requires InCycle(s) && InCycle(t)
    ensures Icon(s) == Icon(t) <==> s == t
  {
  }

  /** On the cycle a press is the successor modulo three (3 wraps to 1);
      off the cycle it is a plain increment. */
  lemma ToggleIsSuccessor(s: int)
    ensures InCycle(s) ==> Toggle(s) == s % 3 + 1
    ensures !InCycle(s) ==> Toggle(s) == s + 1
    ensures Toggle(OrderByBoth) == OrderByDate
  {
  }

  /** From an order on the cycle, `n` presses advance it by `n` modulo three. */
  lemma {:induction false} PressesOnCycle(s: int, n: nat)
    requires InCycle(s)
    ensures InCycle(Presses(s, n))
    ensures Presses(s, n) == (s - 1 + n) % 3 + 1
  {
    if n > 0 {
      PressesOnCycle(s, n - 1);
    }
  }

  /** The cycle has period three: three presses restore any order on it,
      and fewer than three never do. */
  lemma PeriodThree(s: int)
    requires InCycle(s)
    ensures Presses(s, 3) == s
    ensures Presses(s, 1) != s && Presses(s, 2) != s
  {
    PressesOnCycle(s, 1);
    PressesOnCycle(s, 2);
    PressesOnCycle(s, 3);
  }

  /** A value above the cycle is only ever incremented and never comes back. */
  lemma {:induction false} AboveCycleEscapes(s: int, n: nat)
    requires s > OrderByBoth
    ensures Presses(s, n) == s + n
    ensures !InCycle(Presses(s, n))
  {
    if n > 0 {
      AboveCycleEscapes(s, n - 1);
    }
  }

  /** A value below the cycle (0 included) climbs one step per press and
      enters the cycle at `OrderByDate` after exactly `OrderByDate - s` presses. */
  lemma {:induction false} BelowCycleEnters(s: int, n: nat)
    requires s < OrderByDate
    requires n <= OrderByDate - s
    ensures Presses(s, n) == s + n
    ensures InCycle(Presses(s, n)) <==> n == OrderByDate - s
  {
    if n > 0 {
      BelowCycleEnters(s, n - 1);
    }
  }
}
