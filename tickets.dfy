/** Ticket lots (how many are left, sold out, on sale now, and the query
    scope for lots on sale) and the usage counter of event tags. */
module Tickets {
  import opened Common

  /** A row of `ticket_lots`; `quantity_total` is nullable (no limit),
      `quantity_sold` defaults to 0, times in seconds. */
  datatype TicketLot = TicketLot(id: string, quantityTotal: Option<int>, quantitySold: int,
                                 availableFrom: Option<int>, availableUntil: Option<int>, isActive: bool)

  /** `quantity_available`: none without a limit, else what is left, never
      below zero. */
  function QuantityAvailable(l: TicketLot): (q: Option<int>)
    ensures q.None? <==> l.quantityTotal.None?
    ensures q.Some? ==> q.value >= 0
  {
    match l.quantityTotal
    case None => None
    case Some(total) => Some(Max(0, total - l.quantitySold))
  }

  /** `isSoldOut`: never without a limit, else once the sales reach it. */
  predicate IsSoldOut(l: TicketLot)
  {
    l.quantityTotal.Some? && l.quantitySold >= l.quantityTotal.value
  }

  /** `isCurrentlyAvailable`: active, not before its opening, not after its
      closing and not sold out. */
  predicate IsCurrentlyAvailable(l: TicketLot, now: int)
  {
    if !l.isActive then false
    else if l.availableFrom.Some? && l.availableFrom.value > now then false
    else if l.availableUntil.Some? && l.availableUntil.value < now then false
    else !IsSoldOut(l)
  }

  /** `scopeAvailable`, clause by clause as the query states it. */
  predicate InAvailableScope(l: TicketLot, now: int)
  {
    && l.isActive
    && (l.availableFrom.None? || l.availableFrom.value <= now)
    && (l.availableUntil.None? || l.availableUntil.value >= now)
    && (l.quantityTotal.None? || l.quantitySold < l.quantityTotal.value)
  }

  /** The remaining quantity is the limit minus the sales when that is not
      negative, and a limited lot has nothing left exactly when it is sold
      out. */
  lemma QuantityMeaning(l: TicketLot)
    ensures l.quantityTotal.Some? && l.quantitySold <= l.quantityTotal.value ==>
      QuantityAvailable(l) == Some(l.quantityTotal.value - l.quantitySold)
    ensures l.quantityTotal.Some? ==> (QuantityAvailable(l) == Some(0) <==> IsSoldOut(l))
    ensures l.quantityTotal.None? ==> !IsSoldOut(l)
  {
  }

  /** The query scope selects exactly the lots the model method calls
      available. */
  lemma ScopeIsPredicate(l: TicketLot, now: int)
    ensures InAvailableScope(l, now) <==> IsCurrentlyAvailable(l, now)
  {
  }

  /** A lot opening or closing at this very second is on sale. */
  lemma BoundariesIncluded(l: TicketLot, now: int)
    requires l.isActive && !IsSoldOut(l)
    requires l.availableFrom == Some(now) || l.availableUntil == Some(now)
    requires l.availableFrom.None? || l.availableFrom.value <= now
    requires l.availableUntil.None? || l.availableUntil.value >= now
    ensures IsCurrentlyAvailable(l, now) && InAvailableScope(l, now)
  {
  }

  /** A lot on sale has no limit or at least one ticket left. */
  lemma AvailableHasStock(l: TicketLot, now: int)
    requires IsCurrentlyAvailable(l, now)
    ensures QuantityAvailable(l).None? || QuantityAvailable(l).value > 0
  {
  }

  // ---------------------------------------------------------------
  // Tags
  // ---------------------------------------------------------------

  /** `incrementUsage` on the counter's value. */
  function Incremented(n: int): (m: int)
    ensures m > n
  {
    n + 1
  }

  /** `decrementUsage` on the counter's value: guarded at zero. */
  function Decremented(n: int): (m: int)
    ensures n > 0 ==> m == n - 1
    ensures n <= 0 ==> m == n
  {
    if n > 0 then n - 1 else n
  }

  /** The counter never goes below zero, and an increment followed by a
      decrement restores it. */
  lemma UsageCounterLaws(n: int)
    requires n >= 0
    ensures Decremented(n) >= 0 && Incremented(n) >= 0
    ensures Decremented(Incremented(n)) == n
    ensures Decremented(0) == 0
  {
  }

  /** A row of `tags`, whose counter the methods update in place. */
  class TagRecord {
    var usageCount: int

    ghost predicate Valid()
      reads this
    {
      usageCount >= 0
    }

    /** A new tag starts at zero, the column's default. */
    constructor ()
      ensures Valid() && usageCount == 0
    {
      usageCount := 0;
    }

    method IncrementUsage()
      requires Valid()
      modifies this
      ensures Valid() && usageCount == Incremented(old(usageCount))
    {
      usageCount := usageCount + 1;
    }

    method DecrementUsage()
      requires Valid()
      modifies this
      ensures Valid() && usageCount == Decremented(old(usageCount))
    {
      if usageCount > 0 {
        usageCount := usageCount - 1;
      }
    }
  }
}
