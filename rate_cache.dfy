/**
 * The USD-to-EUR rate cache: one rate and the time of its last successful refresh.
 * A positive rate younger than 600 whole seconds is returned as is; otherwise the
 * rate source is asked, and a failed request falls back to the old rate or 0.
 */
module RateCache {
  import opened Base

  /** Ticks of the monotonic clock per second (nanosecond resolution). */
  const TICKS_PER_SECOND: int := 1_000_000_000
  const FRESH_SECONDS: int := 600

  /** `duration_cast<seconds>(now - lastUpdate).count()`: whole seconds, truncated toward zero. */
  function ElapsedSeconds(now: int, lastUpdate: int): (e: int)
    ensures now >= lastUpdate ==> 0 <= e && e * TICKS_PER_SECOND <= now - lastUpdate < (e + 1) * TICKS_PER_SECOND
    ensures now < lastUpdate ==> e <= 0 && -e * TICKS_PER_SECOND <= lastUpdate - now < (-e + 1) * TICKS_PER_SECOND
  {
    var d := now - lastUpdate;
    if d >= 0 then d / TICKS_PER_SECOND else -((-d) / TICKS_PER_SECOND)
  }

  /** The two fields of the cache. */
  datatype Cache = Cache(usdToEuro: real, lastUpdate: int)

  /** What the rate source answered: an HTTP status and the `rates.EUR` value if the body had one. */
  datatype Reply = Reply(status: int, eur: Option<real>)

  predicate Succeeded(reply: Reply) {
    reply.status == 200 && reply.eur.Some?
  }

  /** The returned rate, whether the rate source was asked, and the cache afterwards. */
  datatype Lookup = Lookup(rate: real, fetched: bool, post: Cache)

  function GetRate(c: Cache, now: int, reply: Reply): Lookup {
    if c.usdToEuro > 0.0 && ElapsedSeconds(now, c.lastUpdate) < FRESH_SECONDS then
      Lookup(c.usdToEuro, false, c)
    else if Succeeded(reply) then
      Lookup(reply.eur.value, true, Cache(reply.eur.value, now))
    else
      Lookup(if c.usdToEuro > 0.0 then c.usdToEuro else 0.0, true, c)
  }

  /** The source is skipped exactly when the rate is positive and less than 600 s have passed. */
  lemma HitIff(c: Cache, now: int, reply: Reply)
    requires now >= c.lastUpdate
    ensures !GetRate(c, now, reply).fetched <==>
            c.usdToEuro > 0.0 && now - c.lastUpdate < FRESH_SECONDS * TICKS_PER_SECOND
  {
    var e := ElapsedSeconds(now, c.lastUpdate);
    if e >= FRESH_SECONDS {
      assert FRESH_SECONDS * TICKS_PER_SECOND <= e * TICKS_PER_SECOND;
    }
  }

  /** A hit does not depend on what the source would have said, and changes nothing. */
  lemma HitIgnoresSource(c: Cache, now: int, r1: Reply, r2: Reply)
    requires !GetRate(c, now, r1).fetched
    ensures GetRate(c, now, r1) == GetRate(c, now, r2) == Lookup(c.usdToEuro, false, c)
  {
  }

  /** A successful refresh overwrites both fields and returns the new rate. */
  lemma RefreshOverwrites(c: Cache, now: int, reply: Reply)
    requires GetRate(c, now, reply).fetched && Succeeded(reply)
    ensures GetRate(c, now, reply) == Lookup(reply.eur.value, true, Cache(reply.eur.value, now))
  {
  }

  /** A failed refresh keeps the cache and returns the old rate if positive, else 0. */
  lemma FailureFallsBack(c: Cache, now: int, reply: Reply)
    requires !Succeeded(reply)
    ensures GetRate(c, now, reply).post == c
    ensures GetRate(c, now, reply).rate == if c.usdToEuro > 0.0 then c.usdToEuro else 0.0
  {
  }

  /** A stale positive rate is refreshed, so its age matters in whole seconds only. */
  lemma WindowScenarios(rate: real, t: int, reply: Reply)
    requires rate > 0.0
    ensures !GetRate(Cache(rate, t), t + 599 * TICKS_PER_SECOND, reply).fetched
    ensures !GetRate(Cache(rate, t), t + 600 * TICKS_PER_SECOND - 1, reply).fetched
    ensures GetRate(Cache(rate, t), t + 600 * TICKS_PER_SECOND, reply).fetched
    ensures GetRate(Cache(rate, t), t + 601 * TICKS_PER_SECOND, reply).fetched
  {
    HitIff(Cache(rate, t), t + 599 * TICKS_PER_SECOND, reply);
    HitIff(Cache(rate, t), t + 600 * TICKS_PER_SECOND - 1, reply);
    HitIff(Cache(rate, t), t + 600 * TICKS_PER_SECOND, reply);
    HitIff(Cache(rate, t), t + 601 * TICKS_PER_SECOND, reply);
  }

  /** After a refresh to a positive rate, every call in the next 600 s is a hit on that rate. */
  lemma FreshAfterRefresh(c: Cache, now: int, reply: Reply, later: int, next: Reply)
    requires GetRate(c, now, reply).fetched && Succeeded(reply) && reply.eur.value > 0.0
    requires now <= later < now + FRESH_SECONDS * TICKS_PER_SECOND
    ensures GetRate(GetRate(c, now, reply).post, later, next) == Lookup(reply.eur.value, false, Cache(reply.eur.value, now))
  {
    HitIff(GetRate(c, now, reply).post, later, next);
  }

  /** Successive calls, each at a time with the source's answer for it. */
  function Run(c: Cache, calls: seq<(int, Reply)>): (rs: seq<Lookup>)
    decreases |calls|
    ensures |rs| == |calls|
  {
    if calls == [] then []
    else
      var r := GetRate(c, calls[0].0, calls[0].1);
      [r] + Run(r.post, calls[1..])
  }

  /** With no positive rate stored, failures are not cached: every call asks the source again and gets 0. */
  lemma {:induction false} FailuresNotCached(c: Cache, calls: seq<(int, Reply)>)
    requires c.usdToEuro <= 0.0
    requires forall k :: 0 <= k < |calls| ==> !Succeeded(calls[k].1)
    ensures forall k :: 0 <= k < |calls| ==> Run(c, calls)[k] == Lookup(0.0, true, c)
    decreases |calls|
  {
    if calls != [] {
      FailuresNotCached(c, calls[1..]);
      assert forall k :: 1 <= k < |calls| ==> Run(c, calls)[k] == Run(c, calls[1..])[k - 1];
    }
  }

  /** The cache object (`Service`), with its initial state: no rate, clock epoch. */
  class RateService {
    var usdToEuro: real
    var lastUpdate: int

    ghost function State(): Cache
      reads this
    {
      Cache(usdToEuro, lastUpdate)
    }

    constructor ()
      ensures State() == Cache(0.0, 0)
    {
      usdToEuro, lastUpdate := 0.0, 0;
    }

    /** `get_usd_to_euro`, given the clock reading and the rate source's answer. */
    method GetUsdToEuro(now: int, reply: Reply) returns (rate: real)
      modifies this
      ensures rate == GetRate(old(State()), now, reply).rate
      ensures State() == GetRate(old(State()), now, reply).post
    {
      var elapsed := ElapsedSeconds(now, lastUpdate);
      if usdToEuro > 0.0 && elapsed < FRESH_SECONDS {
        return usdToEuro;
      }
      if reply.status == 200 {
        if reply.eur.Some? {
          usdToEuro := reply.eur.value;
          lastUpdate := now;
          return usdToEuro;
        }
      }
      rate := if usdToEuro > 0.0 then usdToEuro else 0.0;
    }
  }
}
