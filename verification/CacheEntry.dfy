/** Expiry of a cached value: half-open, from the fetch to fetch + TTL. */
module CacheEntry {
  import opened Common

  datatype Entry = Entry(fetchedAt: Time, ttl: Time) {
    predicate IsFreshAt(now: Time) {
      now - fetchedAt < ttl
    }

    function ExpiresAt(): Time {
      fetchedAt + ttl
    }

    function RemainingTtlAt(now: Time): (r: Time)
      ensures r > 0 <==> IsFreshAt(now)
      ensures r > 0 ==> now + r == ExpiresAt()
    {
      var remaining := ttl - (now - fetchedAt);
      if remaining < 0 then 0 else remaining
    }
  }

  class Timer {
    var fetchedAt: Time
    const ttl: Time

    function View(): Entry
      reads this
    {
      Entry(fetchedAt, ttl)
    }

    constructor (fetchedAt: Time, ttl: Time)
      ensures View() == Entry(fetchedAt, ttl)
    {
      this.fetchedAt, this.ttl := fetchedAt, ttl;
    }

    /** A refresh at `now` buys exactly one more TTL. */
    method RefreshAt(now: Time)
      modifies this
      ensures View() == old(View()).(fetchedAt := now)
      ensures forall t: Time :: View().IsFreshAt(t) <==> t < now + ttl
    {
      fetchedAt := now;
    }
  }
}
