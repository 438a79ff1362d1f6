/** The per-user attach rate limit: a token bucket with capacity four, refilled by one token a
    second (internal/cgrouptrack/server.go). Time and tokens are real numbers. */
module AttachBucket {
  import opened Options

  const Capacity: real := 4.0

  datatype Bucket = Bucket(tokens: real, last: real)

  function Max(a: real, b: real): real { if a < b then b else a }

  function Min(a: real, b: real): real { if a < b then a else b }

  /** The refill: only when time has moved forward, never above capacity. */
  function Refilled(b: Option<Bucket>, now: real): Bucket
  {
    match b
    case None => Bucket(Capacity, now)
    case Some(k) => if now - k.last > 0.0 then Bucket(Min(k.tokens + (now - k.last), Capacity), now) else k
  }

  /** One request: the bucket afterwards and whether it was admitted. */
  function Attempt(b: Option<Bucket>, now: real): (Bucket, bool)
  {
    var r := Refilled(b, now);
    if r.tokens < 1.0 then (r, false) else (r.(tokens := r.tokens - 1.0), true)
  }

  class Server {
    var attachByUID: map<nat, Bucket>

    constructor ()
      ensures attachByUID == map[]
    {
      attachByUID := map[];
    }

    function Of(uid: nat): Option<Bucket>
      reads this
    {
      if uid in attachByUID then Some(attachByUID[uid]) else None
    }

    /** allowAttach decides by the caller's own bucket and changes no other. */
    method AllowAttach(uid: nat, now: real) returns (ok: bool)
      modifies this
      ensures (attachByUID, ok) == var (b, admitted) := Attempt(old(Of(uid)), now);
                (old(attachByUID)[uid := b], admitted)
    {
      var bucket := if uid in attachByUID then attachByUID[uid] else Bucket(Capacity, now);
      var elapsed := now - bucket.last;
      if elapsed > 0.0 {
        var tokens := bucket.tokens + elapsed;
        if tokens > Capacity { tokens := Capacity; }
        bucket := Bucket(tokens, now);
      }
      if bucket.tokens < 1.0 {
        attachByUID := attachByUID[uid := bucket];
        return false;
      }
      attachByUID := attachByUID[uid := bucket.(tokens := bucket.tokens - 1.0)];
      return true;
    }
  }

  // ----- runs of one user -----

  predicate Full(b: Option<Bucket>) { b.Some? ==> 0.0 <= b.value.tokens <= Capacity }

  /** The bucket after requests at the given times. */
  function After(b: Option<Bucket>, times: seq<real>): Option<Bucket>
  {
    if times == [] then b else Some(Attempt(After(b, times[..|times| - 1]), times[|times| - 1]).0)
  }

  /** How many of them were admitted. */
  function Admitted(b: Option<Bucket>, times: seq<real>): nat
  {
    if times == [] then 0
    else
      var n := |times| - 1;
      Admitted(b, times[..n]) + (if Attempt(After(b, times[..n]), times[n]).1 then 1 else 0)
  }

  function Latest(times: seq<real>): real
    requires times != []
  {
    if |times| == 1 then times[0] else Max(Latest(times[..|times| - 1]), times[|times| - 1])
  }

  /** The tokens never leave [0, 4]. */
  lemma {:induction false} TokensInRange(b: Option<Bucket>, times: seq<real>)
    requires Full(b)
    ensures Full(After(b, times))
  {
    if times != [] {
      TokensInRange(b, times[..|times| - 1]);
    }
  }

  /** The clock the bucket goes by never runs backwards, whatever times are supplied. */
  lemma {:induction false} LastIsLatest(b: Option<Bucket>, times: seq<real>)
    requires times != []
    ensures After(b, times).Some?
    ensures After(b, times).value.last == if b.Some? then Max(b.value.last, Latest(times)) else Latest(times)
  {
    var n := |times| - 1;
    if n > 0 {
      LastIsLatest(b, times[..n]);
    } else {
      assert times[..0] == [];
    }
  }

  /** What a window spent and kept is paid for by the first refill and the time that passed since. */
  lemma {:induction false} Budget(b: Option<Bucket>, times: seq<real>)
    requires Full(b) && times != []
    ensures var first := Refilled(b, times[0]); var end := After(b, times).value;
            Admitted(b, times) as real + end.tokens <= Capacity + (end.last - first.last)
  {
    var n := |times| - 1;
    if n == 0 {
      assert times[..0] == [];
    } else {
      Budget(b, times[..n]);
      TokensInRange(b, times[..n]);
      assert times[..n][0] == times[0];
    }
  }

  lemma {:induction false} FirstBeforeLatest(times: seq<real>)
    requires times != []
    ensures times[0] <= Latest(times)
  {
    if |times| > 1 {
      FirstBeforeLatest(times[..|times| - 1]);
    }
  }

  /** In any window of requests of one user, also with times going backwards, at most four plus the
      seconds from the window's first time to its latest are admitted. */
  lemma RateLimit(b: Option<Bucket>, times: seq<real>)
    requires Full(b) && times != []
    ensures Admitted(b, times) as real <= Capacity + (Latest(times) - times[0])
  {
    Budget(b, times);
    TokensInRange(b, times);
    LastIsLatest(b, times);
    FirstBeforeLatest(times);
  }

  /** Four requests at `first`, then one at every full second, `n` times. */
  function Spaced(first: real, n: nat): seq<real>
  {
    if n == 0 then [first, first, first, first] else Spaced(first, n - 1) + [first + n as real]
  }

  lemma AfterSnoc(b: Option<Bucket>, times: seq<real>, now: real)
    ensures After(b, times + [now]) == Some(Attempt(After(b, times), now).0)
    ensures Admitted(b, times + [now]) == Admitted(b, times) + (if Attempt(After(b, times), now).1 then 1 else 0)
    ensures times != [] ==> Latest(times + [now]) == Max(Latest(times), now)
  {
    assert (times + [now])[..|times|] == times;
  }

  lemma Burst(first: real)
    ensures var ts := Spaced(first, 0);
            After(None, ts) == Some(Bucket(0.0, first)) && Admitted(None, ts) == 4 && Latest(ts) == first
  {
    var t1: seq<real> := [first];
    assert t1 == [] + [first];
    AfterSnoc(None, [], first);
    AfterSnoc(None, t1, first);
    AfterSnoc(None, t1 + [first], first);
    AfterSnoc(None, t1 + [first] + [first], first);
    assert Spaced(first, 0) == t1 + [first] + [first] + [first];
    assert Latest(t1) == first && After(None, []) == None && Admitted(None, []) == 0;
    hide After, Admitted, Latest, Spaced;
  }

  lemma {:induction false} SpacedAdmits(first: real, n: nat)
    ensures var ts := Spaced(first, n);
            && ts != [] && ts[0] == first && Latest(ts) == first + n as real
            && After(None, ts) == Some(Bucket(0.0, first + n as real)) && Admitted(None, ts) == 4 + n
  {
    if n == 0 {
      Burst(first);
    } else {
      var before, last := Spaced(first, n - 1), first + (n - 1) as real;
      SpacedAdmits(first, n - 1);
      assert first + n as real == last + 1.0;
      AfterSnoc(None, before, last + 1.0);
      OneSecond(last);
      assert Spaced(first, n) == before + [last + 1.0];
    }
    hide After, Admitted, Latest, Spaced, Attempt;
  }

  /** A second refills an empty bucket by exactly the one token that is then spent. */
  lemma OneSecond(t: real)
    ensures Attempt(Some(Bucket(0.0, t)), t + 1.0) == (Bucket(0.0, t + 1.0), true) && Max(t, t + 1.0) == t + 1.0
  {
  }

  /** The bound is attained for every first and latest time: a fresh user gets four requests and one
      more for every full second between them. */
  lemma RateLimitTight(first: real, latest: real) returns (times: seq<real>)
    requires first <= latest
    ensures times != [] && times[0] == first && Latest(times) == latest
    ensures Admitted(None, times) == 4 + (latest - first).Floor
  {
    var n := (latest - first).Floor;
    SpacedAdmits(first, n);
    AfterSnoc(None, Spaced(first, n), latest);
    times := Spaced(first, n) + [latest];
    hide After, Admitted, Latest, Spaced;
  }

  predicate Ordered(times: seq<real>) { forall i, j | 0 <= i < j < |times| :: times[i] <= times[j] }

  lemma {:induction false} LatestIsLast(times: seq<real>)
    requires times != [] && Ordered(times)
    ensures Latest(times) == times[|times| - 1]
  {
    if |times| > 1 {
      LatestIsLast(times[..|times| - 1]);
    }
  }

  /** With times in order, that is four plus the seconds between the first and the last request. */
  lemma RateLimitOrdered(b: Option<Bucket>, times: seq<real>)
    requires Full(b) && times != [] && Ordered(times)
    ensures Admitted(b, times) as real <= Capacity + (times[|times| - 1] - times[0])
  {
    RateLimit(b, times);
    LatestIsLast(times);
  }

  /** Out of order, the latest time is needed: from any time, a window whose last request returns to
      the first's time admits five, though no time lies between first and last. */
  lemma LastTimeIsNotEnough(first: real)
    ensures var times := Spaced(first, 1) + [first];
            && times[0] == times[|times| - 1] == first
            && Admitted(None, times) as real > Capacity + (times[|times| - 1] - times[0])
  {
    SpacedAdmits(first, 1);
    AfterSnoc(None, Spaced(first, 1), first);
    hide After, Admitted, Latest, Spaced;
  }
}
