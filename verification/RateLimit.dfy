/** The sliding-window limiter of `check_rate_limit`, with clock readings as exact reals. */
module RateLimit {

  /** `Crash` is the IndexError of looking at the head of an empty bucket when the limit is not positive. */
  datatype Answer = Admitted | Refused(retryAfter: int) | Crash

  /** `popleft` while the head is older than the cutoff. */
  function Evict(bucket: seq<real>, cutoff: real): seq<real> {
    if bucket != [] && bucket[0] < cutoff then Evict(bucket[1..], cutoff) else bucket
  }

  /** What `Evict` takes away. */
  function Older(bucket: seq<real>, cutoff: real): seq<real> {
    if bucket != [] && bucket[0] < cutoff then [bucket[0]] + Older(bucket[1..], cutoff) else []
  }

  /** The answer to one call, given the bucket as eviction left it. */
  function AnswerFor(bucket: seq<real>, now: real, limit: int, window: int): Answer {
    if |bucket| < limit then Admitted
    else if bucket == [] then Crash
    else Refused((window as real - (now - bucket[0])).Floor + 1)
  }

  class Limiter<Key(==)> {
    var buckets: map<Key, seq<real>>

    constructor ()
      ensures buckets == map[]
    {
      buckets := map[];
    }

    function BucketOf(key: Key): seq<real>
      reads this
    {
      if key in buckets then buckets[key] else []
    }

    /** `check_rate_limit` inside the lock. */
    method Check(key: Key, now: real, limit: int, window: int) returns (r: Answer)
      modifies this
      ensures r == AnswerFor(Evict(old(BucketOf(key)), now - window as real), now, limit, window)
      ensures buckets == old(buckets)[key := History([], old(BucketOf(key))).Call(now, limit, window).bucket]
    {
      var cutoff := now - window as real;
      var bucket := BucketOf(key);
      while bucket != [] && bucket[0] < cutoff
        invariant Evict(bucket, cutoff) == Evict(old(BucketOf(key)), cutoff)
        decreases |bucket|
      {
        bucket := bucket[1..];
      }
      if |bucket| >= limit {
        buckets := buckets[key := bucket];
        if bucket == [] {
          return Crash;
        }
        return Refused((window as real - (now - bucket[0])).Floor + 1);
      }
      bucket := bucket + [now];
      buckets := buckets[key := bucket];
      r := Admitted;
    }
  }

  // ----- one key over its whole history

  /** Every time a key ever admitted a call: those evicted so far, then the bucket. */
  datatype History = History(evicted: seq<real>, bucket: seq<real>) {
    function Admissions(): seq<real> { evicted + bucket }

    function Expire(cutoff: real): History {
      History(evicted + Older(bucket, cutoff), Evict(bucket, cutoff))
    }

    /** The effect `Check` promises. */
    function Call(now: real, limit: int, window: int): History {
      var h := Expire(now - window as real);
      if AnswerFor(h.bucket, now, limit, window).Admitted? then h.(bucket := h.bucket + [now]) else h
    }

    function Calls(times: seq<real>, limit: int, window: int): History {
      if times == [] then this
      else Calls(times[..|times| - 1], limit, window).Call(times[|times| - 1], limit, window)
    }
  }

  const NEW := History([], [])

  ghost predicate Ascending(times: seq<real>) {
    forall i, j :: 0 <= i < j < |times| ==> times[i] <= times[j]
  }

  /** A call and one `limit` or more admissions before it are more than a window apart. */
  ghost predicate Spaced(admitted: seq<real>, limit: int, window: int) {
    forall i, j :: 0 <= i < j < |admitted| && limit <= j - i ==> admitted[j] - admitted[i] > window as real
  }

  /** The cutoff splits the admissions into evicted ones and the bucket, which never overflows. */
  ghost predicate Inv(h: History, now: real, limit: int, window: int) {
    && (forall x :: x in h.evicted ==> x < now - window as real)
    && (forall x :: x in h.bucket ==> now - window as real <= x <= now)
    && |h.bucket| <= limit && Ascending(h.bucket)
    && Ascending(h.Admissions()) && Spaced(h.Admissions(), limit, window)
  }

  lemma {:induction false} EvictKeepsAll(bucket: seq<real>, cutoff: real)
    ensures Older(bucket, cutoff) + Evict(bucket, cutoff) == bucket
    ensures forall x :: x in Older(bucket, cutoff) ==> x < cutoff
    ensures |Evict(bucket, cutoff)| <= |bucket|
  {
    if bucket != [] && bucket[0] < cutoff {
      EvictKeepsAll(bucket[1..], cutoff);
    }
  }

  lemma {:induction false} EvictCuts(bucket: seq<real>, cutoff: real)
    requires Ascending(bucket)
    ensures Ascending(Evict(bucket, cutoff))
    ensures forall x :: x in Evict(bucket, cutoff) ==> cutoff <= x
  {
    if bucket != [] && bucket[0] < cutoff {
      EvictCuts(bucket[1..], cutoff);
    } else {
      forall x | x in bucket
        ensures cutoff <= x
      {
        var i :| 0 <= i < |bucket| && bucket[i] == x;
      }
    }
  }

  lemma ExpireMovesCalls(h: History, cutoff: real)
    ensures h.Expire(cutoff).Admissions() == h.Admissions()
  {
    EvictKeepsAll(h.bucket, cutoff);
    ConcatAssociates(h.evicted, Older(h.bucket, cutoff), Evict(h.bucket, cutoff));
  }

  lemma ConcatAssociates(a: seq<real>, b: seq<real>, c: seq<real>)
    ensures (a + b) + c == a + (b + c)
  {}

  /** Evicted times are older than the cutoff, kept ones are not. */
  lemma ExpireSplits(h: History, before: real, now: real, limit: int, window: int)
    requires Inv(h, before, limit, window) && before <= now
    ensures var e := h.Expire(now - window as real);
            && (forall x :: x in e.evicted ==> x < now - window as real)
            && (forall x :: x in e.bucket ==> now - window as real <= x <= now)
            && |e.bucket| <= limit && Ascending(e.bucket)
  {
    var cutoff := now - window as real;
    EvictKeepsAll(h.bucket, cutoff);
    EvictCuts(h.bucket, cutoff);
    EvictOnlyDrops(h.bucket, cutoff);
    forall x | x in h.evicted + Older(h.bucket, cutoff)
      ensures x < now - window as real
    {
      if x in h.evicted {
        assert x < before - window as real;
      }
    }
  }

  lemma {:induction false} EvictOnlyDrops(bucket: seq<real>, cutoff: real)
    ensures forall x :: x in Evict(bucket, cutoff) ==> x in bucket
  {
    if bucket != [] && bucket[0] < cutoff {
      EvictOnlyDrops(bucket[1..], cutoff);
    }
  }

  lemma ExpireKeepsInv(h: History, before: real, now: real, limit: int, window: int)
    requires Inv(h, before, limit, window) && before <= now
    ensures Inv(h.Expire(now - window as real), now, limit, window)
  {
    ExpireMovesCalls(h, now - window as real);
    ExpireSplits(h, before, now, limit, window);
  }

  lemma AdmitKeepsInv(h: History, now: real, limit: int, window: int)
    requires Inv(h, now, limit, window) && |h.bucket| < limit && window >= 0
    ensures Inv(h.(bucket := h.bucket + [now]), now, limit, window)
  {
    var a := h.Admissions();
    var n := |a|;
    assert h.evicted + (h.bucket + [now]) == a + [now];
    forall i | 0 <= i < n
      ensures a[i] <= now
      ensures limit <= n - i ==> a[i] < now - window as real
    {
      if i < |h.evicted| {
        assert a[i] in h.evicted;
      } else {
        assert a[i] in h.bucket;
      }
    }
    forall i | 0 <= i < |h.bucket|
      ensures h.bucket[i] <= now
    {
      assert h.bucket[i] in h.bucket;
    }
  }

  lemma CallKeepsInv(h: History, before: real, now: real, limit: int, window: int)
    requires limit >= 1 && window >= 0 && Inv(h, before, limit, window) && before <= now
    ensures Inv(h.Call(now, limit, window), now, limit, window)
  {
    ExpireKeepsInv(h, before, now, limit, window);
    var e := h.Expire(now - window as real);
    if |e.bucket| < limit {
      AdmitKeepsInv(e, now, limit, window);
    }
  }

  /** After calls with non-decreasing clock readings the bucket holds exactly the admissions not
      older than the last cutoff, and admissions keep their distance. */
  lemma {:induction false} LimiterInvariant(times: seq<real>, limit: int, window: int)
    requires limit >= 1 && window >= 0 && Ascending(times) && times != []
    ensures Inv(NEW.Calls(times, limit, window), times[|times| - 1], limit, window)
  {
    var n := |times| - 1;
    if n == 0 {
      NewHistory(times[0], limit, window);
      assert NEW.Calls(times[..n], limit, window) == NEW;
      CallKeepsInv(NEW, times[0], times[0], limit, window);
    } else {
      LimiterInvariant(times[..n], limit, window);
      CallKeepsInv(NEW.Calls(times[..n], limit, window), times[n - 1], times[n], limit, window);
    }
  }

  lemma NewHistory(now: real, limit: int, window: int)
    requires limit >= 1
    ensures Inv(NEW, now, limit, window)
  {}

  // ----- the bound

  lemma {:induction false} BoundedSetSize(s: set<int>, lo: int, n: nat)
    requires forall i :: i in s ==> lo <= i < lo + n
    ensures |s| <= n
  {
    if n == 0 {
      assert forall i :: i !in s;
      assert s == {};
    } else {
      BoundedSetSize(s - {lo + n - 1}, lo, n - 1);
    }
  }

  /** Every closed interval as long as the window contains at most `limit` admitted calls. */
  lemma WindowBound(times: seq<real>, limit: int, window: int, t: real)
    requires limit >= 1 && window >= 0 && Ascending(times)
    ensures var a := NEW.Calls(times, limit, window).Admissions();
            |set i | 0 <= i < |a| && t <= a[i] <= t + window as real| <= limit
  {
    var a := NEW.Calls(times, limit, window).Admissions();
    if times == [] {
      assert a == [];
      assert Spaced(a, limit, window) && Ascending(a);
    } else {
      LimiterInvariant(times, limit, window);
    }
    SpacedCallsFit(a, limit, window, t);
  }

  lemma SpacedCallsFit(a: seq<real>, limit: int, window: int, t: real)
    requires limit >= 1 && Ascending(a) && Spaced(a, limit, window)
    ensures |set i | 0 <= i < |a| && t <= a[i] <= t + window as real| <= limit
  {
    var lo := 0;
    while lo < |a| && a[lo] < t
      invariant 0 <= lo <= |a| && forall i :: 0 <= i < lo ==> a[i] < t
    {
      lo := lo + 1;
    }
    var inside := set i | 0 <= i < |a| && t <= a[i] <= t + window as real;
    forall i | i in inside
      ensures lo <= i < lo + limit
    {
      assert lo <= i;
    }
    BoundedSetSize(inside, lo, limit);
  }

  // ----- the promise to a refused caller

  lemma {:induction false} EvictTwice(bucket: seq<real>, c: real, c': real)
    requires c <= c'
    ensures Evict(Evict(bucket, c), c') == Evict(bucket, c')
  {
    if bucket != [] && bucket[0] < c {
      EvictTwice(bucket[1..], c, c');
    }
  }

  /** Refused calls only evict. */
  ghost predicate AllRefused(h: History, times: seq<real>, limit: int, window: int) {
    times == [] ||
    (var n := |times| - 1;
     AllRefused(h, times[..n], limit, window) &&
     var kept := Evict(h.Calls(times[..n], limit, window).bucket, times[n] - window as real);
     !AnswerFor(kept, times[n], limit, window).Admitted?)
  }

  lemma {:induction false} RefusedCallsOnlyEvict(h: History, times: seq<real>, later: real, limit: int, window: int)
    requires (forall i :: 0 <= i < |times| ==> times[i] <= later) && AllRefused(h, times, limit, window)
    ensures Evict(h.Calls(times, limit, window).bucket, later - window as real) == Evict(h.bucket, later - window as real)
  {
    if times != [] {
      var n := |times| - 1;
      RefusedCallsOnlyEvict(h, times[..n], later, limit, window);
      EvictTwice(h.Calls(times[..n], limit, window).bucket, times[n] - window as real, later - window as real);
    }
  }

  /** The call at `now`, after these, is refused and told to wait. */
  ghost predicate Told(times: seq<real>, now: real, told: int, limit: int, window: int) {
    && limit >= 1 && window >= 0 && Ascending(times + [now])
    && AnswerFor(Evict(NEW.Calls(times, limit, window).bucket, now - window as real), now, limit, window) == Refused(told)
  }

  ghost predicate AdmittedAt(h: History, later: real, limit: int, window: int) {
    AnswerFor(Evict(h.bucket, later - window as real), later, limit, window).Admitted?
  }

  /** A full bucket that refuses, and nothing but refused calls since. */
  ghost predicate Waiting(h: History, now: real, told: int, between: seq<real>, later: real, limit: int, window: int) {
    && AnswerFor(h.bucket, now, limit, window) == Refused(told) && |h.bucket| <= limit
    && AllRefused(h, between, limit, window) && forall i :: 0 <= i < |between| ==> between[i] <= later
  }

  /** A refused call leaves the bucket it found, full and with a head not older than the window. */
  lemma RefusedBucket(times: seq<real>, now: real, told: int, limit: int, window: int)
    requires Told(times, now, told, limit, window)
    ensures var h := NEW.Calls(times + [now], limit, window);
            AnswerFor(h.bucket, now, limit, window) == Refused(told) && |h.bucket| <= limit && told >= 1
  {
    assert (times + [now])[..|times|] == times;
    LimiterInvariant(times + [now], limit, window);
    var kept := NEW.Calls(times + [now], limit, window).bucket;
    assert kept[0] in kept;
  }

  lemma HeadGoes(bucket: seq<real>, cutoff: real)
    requires bucket != [] && bucket[0] < cutoff
    ensures |Evict(bucket, cutoff)| < |bucket|
  {
    EvictKeepsAll(bucket[1..], cutoff);
  }

  lemma WaitedEnough(h: History, now: real, told: int, between: seq<real>, later: real, limit: int, window: int)
    requires Waiting(h, now, told, between, later, limit, window) && now + told as real <= later
    ensures AdmittedAt(h.Calls(between, limit, window), later, limit, window)
  {
    RefusedCallsOnlyEvict(h, between, later, limit, window);
    HeadGoes(h.bucket, later - window as real);
  }

  lemma WaitedTooShort(h: History, now: real, told: int, between: seq<real>, later: real, limit: int, window: int)
    requires Waiting(h, now, told, between, later, limit, window) && later <= now + told as real - 1.0
    ensures !AdmittedAt(h.Calls(between, limit, window), later, limit, window)
  {
    RefusedCallsOnlyEvict(h, between, later, limit, window);
    var left := window as real - (now - h.bucket[0]);
    assert told as real - 1.0 == left.Floor as real <= left;
    assert Evict(h.bucket, later - window as real) == h.bucket;
  }

  /** A caller refused after any history and told to wait is admitted after that wait, if every call
      in between was refused; and after every wait that falls short of it by a second or more it is refused
      again, so of the whole waits that suffice it is the least. */
  lemma RetryAfterIsHonoured(times: seq<real>, now: real, told: int, between: seq<real>, later: real, limit: int, window: int)
    requires Told(times, now, told, limit, window)
    requires AllRefused(NEW.Calls(times + [now], limit, window), between, limit, window)
    requires forall i :: 0 <= i < |between| ==> between[i] <= later
    ensures told >= 1
    ensures now + told as real <= later ==>
              AdmittedAt(NEW.Calls(times + [now], limit, window).Calls(between, limit, window), later, limit, window)
    ensures later <= now + told as real - 1.0 ==>
              !AdmittedAt(NEW.Calls(times + [now], limit, window).Calls(between, limit, window), later, limit, window)
  {
    var h := NEW.Calls(times + [now], limit, window);
    RefusedBucket(times, now, told, limit, window);
    if now + told as real <= later {
      WaitedEnough(h, now, told, between, later, limit, window);
    } else if later <= now + told as real - 1.0 {
      WaitedTooShort(h, now, told, between, later, limit, window);
    }
  }

  /** A limit below one admits nobody: every call raises. */
  lemma {:induction false} NoLimitNoAdmission(times: seq<real>, now: real, limit: int, window: int)
    requires limit < 1
    ensures var h := NEW.Calls(times, limit, window);
            h.Admissions() == [] && AnswerFor(Evict(h.bucket, now - window as real), now, limit, window) == Crash
  {
    if times != [] {
      var n := |times| - 1;
      NoLimitNoAdmission(times[..n], times[n], limit, window);
    }
  }
}
