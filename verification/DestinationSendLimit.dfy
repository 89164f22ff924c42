/** `DestinationSendLimitService` over the counters it keeps in Redis, one for each purpose and destination. */
module DestinationSendLimit {
  import opened Prelude
  import opened SendLimit

  /** Keys are digests of the destination under a secret: distinct pairs have distinct keys. */
  datatype Key = Key(purpose: nat, destination: nat)

  class DestinationSendLimitService {
    var counters: map<Key, Counter>
    const budgets: nat -> Budget

    constructor (budgets: nat -> Budget)
      ensures counters == map[] && this.budgets == budgets
    {
      this.budgets := budgets;
      counters := map[];
    }

    ghost function CounterOf(key: Key): Option<Counter>
      reads this
    {
      if key in counters then Some(counters[key]) else None
    }

    /** Null when the destination has used its budget for this window; the attempt counts either way. */
    method Reserve(purpose: nat, destination: nat, now: nat) returns (reservation: Option<Key>)
      modifies this`counters
      ensures var key := Key(purpose, destination);
        && counters == old(counters)[key := Incremented(old(CounterOf(key)), now, budgets(purpose))]
        && reservation == if old(HasBudget(CounterOf(key), now, budgets(purpose))) then Some(key) else None
      ensures var key := Key(purpose, destination);
        var isOpen := key in old(counters) && now < old(counters)[key].expiresAt;
        && key in counters
        && counters[key].expiresAt == (if isOpen then old(counters)[key].expiresAt else now + budgets(purpose).windowMilliseconds)
        && counters[key].value == (if isOpen then old(counters)[key].value + 1 else 1)
        && (reservation.Some? <==> counters[key].value <= budgets(purpose).limit)
        && (reservation.Some? ==> reservation.value == key)
        && forall other <- counters :: other != key ==> other in old(counters) && counters[other] == old(counters)[other]
    {
      var key := Key(purpose, destination);
      var budget := budgets(purpose);
      var counter := Counter(1, now + budget.windowMilliseconds);
      if key in counters && now < counters[key].expiresAt {
        counter := counters[key].(value := counters[key].value + 1);
      }
      counters := counters[key := counter];
      return if counter.value > budget.limit then None else Some(key);
    }

    /** The advisory check. */
    method PeekBudget(purpose: nat, destination: nat, now: nat) returns (hasBudget: bool)
      ensures hasBudget == HasBudget(CounterOf(Key(purpose, destination)), now, budgets(purpose))
      ensures var key := Key(purpose, destination);
        hasBudget <==>
          (if key in counters && now < counters[key].expiresAt then counters[key].value else 0) < budgets(purpose).limit
    {
      var key := Key(purpose, destination);
      var count := if key in counters && now < counters[key].expiresAt then counters[key].value else 0;
      return count < budgets(purpose).limit;
    }

    method Release(key: Key, now: nat)
      modifies this`counters
      ensures counters.Keys == old(counters.Keys) && CounterOf(key) == GivenBack(old(CounterOf(key)), now)
      ensures key in counters ==>
        counters[key].expiresAt == old(counters)[key].expiresAt
        && counters[key].value == old(counters)[key].value - if now < old(counters)[key].expiresAt then 1 else 0
      ensures forall other <- counters :: other != key ==> counters[other] == old(counters)[other]
    {
      if key in counters && now < counters[key].expiresAt {
        counters := counters[key := counters[key].(value := counters[key].value - 1)];
      }
    }

    /**
      Runs a reserved send that ends at `now`, giving the reservation back if it failed; the send's
      own error is what the caller sees, whether or not the give-back went through.
     */
    method SendReserved(reservation: Key, isSent: bool, isReleased: bool, now: nat) returns (result: Result<(), ()>)
      modifies this`counters
      ensures result.Ok? <==> isSent
      ensures counters.Keys == old(counters.Keys)
      ensures CounterOf(reservation) ==
        if !isSent && isReleased then GivenBack(old(CounterOf(reservation)), now) else old(CounterOf(reservation))
      ensures forall other <- counters :: other != reservation ==> counters[other] == old(counters)[other]
    {
      if isSent {
        return Ok(());
      }
      if isReleased {
        Release(reservation, now);
      }
      return Err(());
    }

    /**
      Reserves, then sends. A refusal never sends; a send that fails within the window it was reserved
      in leaves the window's count as it found it.
     */
    method SendWithinLimit(purpose: nat, destination: nat, isSent: bool, isReleased: bool, now: nat, endedAt: nat)
      returns (result: Result<bool, ()>)
      requires now <= endedAt
      modifies this`counters
      ensures var key := Key(purpose, destination);
        && (result == Ok(false) <==> !old(HasBudget(CounterOf(key), now, budgets(purpose))))
        && (result.Err? ==> !isSent)
        && (result.Err? && isReleased && old(IsLive(CounterOf(key), endedAt)) ==> CounterOf(key) == old(CounterOf(key)))
        && (!result.Err? ==> CounterOf(key) == Some(Incremented(old(CounterOf(key)), now, budgets(purpose))))
        && (forall other <- counters :: other != key ==> other in old(counters) && counters[other] == old(counters)[other])
    {
      var reservation := Reserve(purpose, destination, now);
      if reservation.None? {
        return Ok(false);
      }
      var sent := SendReserved(reservation.value, isSent, isReleased, endedAt);
      return if sent.Err? then Err(()) else Ok(true);
    }
  }
}
