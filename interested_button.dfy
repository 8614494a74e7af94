/**
 * The "interested" button of an event page: a click flips the interest and
 * moves the count at once, then waits for the server; a failure puts both
 * back. The button is disabled while the call is pending, so no second
 * click starts before the first has settled. The server call itself is an
 * input: whether it threw.
 */
module InterestedButton {

  /** `count > 1 ? 'Intéressés' : 'Intéressé'`. */
  function CountLabel(count: int): (text: string)
    ensures text == "Intéressés" <==> count > 1
    ensures text == "Intéressé" <==> count <= 1
  {
    if count > 1 then "Intéressés" else "Intéressé"
  }

  /** The count after an optimistic flip to `nowInterested`. */
  function Moved(count: int, nowInterested: bool): (c: int)
    ensures c - count == if nowInterested then 1 else -1
  {
    if nowInterested then count + 1 else count - 1
  }

  /** The count after undoing the flip to `nowInterested`. */
  function MovedBack(count: int, nowInterested: bool): (c: int)
    ensures c - count == if nowInterested then -1 else 1
  {
    if nowInterested then count - 1 else count + 1
  }

  /** Undoing a flip gives back the count the click started from. */
  lemma MovedBackUndoes(count: int, nowInterested: bool)
    ensures MovedBack(Moved(count, nowInterested), nowInterested) == count
  {
  }

  class Button {
    var isInterested: bool
    var count: int
    var isPending: bool

    constructor(initialCount: int, hasInterestsAlready: bool)
      ensures isInterested == hasInterestsAlready && count == initialCount && !isPending
    {
      isInterested := hasInterestsAlready;
      count := initialCount;
      isPending := false;
    }

    function Label(): string
      reads this
    {
      CountLabel(count)
    }

    /** `disabled={isPending}`. */
    predicate Enabled()
      reads this
    {
      !isPending
    }

    /** The click: pending, the interest flipped, the count moved; returns `nextInterested`. */
    method Click() returns (nextInterested: bool)
      requires Enabled()
      modifies this
      ensures nextInterested == !old(isInterested)
      ensures isPending && isInterested == nextInterested
      ensures count == Moved(old(count), nextInterested)
    {
      isPending := true;
      nextInterested := !isInterested;
      isInterested := nextInterested;
      count := Moved(count, nextInterested);
    }

    /** The call settles: on an error the interest and the count are put back; in every case the button is enabled again. */
    method Settle(nextInterested: bool, failed: bool)
      requires isPending
      modifies this
      ensures !isPending
      ensures failed ==> isInterested == !nextInterested && count == MovedBack(old(count), nextInterested)
      ensures !failed ==> isInterested == old(isInterested) && count == old(count)
    {
      if failed {
        isInterested := !nextInterested;
        count := MovedBack(count, nextInterested);
      }
      isPending := false;
    }

    /**
     * `handleAction`: a successful call leaves the interest flipped and the
     * count moved by one toward it; a failed call leaves both as they were
     * before the click. The button ends enabled either way.
     */
    method HandleAction(failed: bool)
      requires Enabled()
      modifies this
      ensures Enabled()
      ensures !failed ==> isInterested == !old(isInterested) && count == Moved(old(count), isInterested)
      ensures failed ==> isInterested == old(isInterested) && count == old(count)
    {
      var nextInterested := Click();
      Settle(nextInterested, failed);
      MovedBackUndoes(old(count), nextInterested);
    }
  }
}
