/** The sliding-window rate limiter: pruned buckets decide exactly as the whole history of allowed calls would. */
module RateLimiter {

  /** The times after a moment, in their order. */
  function After(times: seq<int>, start: int): seq<int> {
    if times == [] then []
    else
      var rest := After(times[..|times| - 1], start);
      if times[|times| - 1] > start then rest + [times[|times| - 1]] else rest
  }

  predicate Ordered(times: seq<int>) {
    forall i, j :: 0 <= i < j < |times| ==> times[i] <= times[j]
  }

  /** The specification: a call is allowed when fewer than requests were allowed within the window before it. */
  predicate Allows(history: seq<int>, requests: int, window: int, now: int) {
    |After(history, now - window)| < requests
  }

  /** A history each of whose calls the specification allowed. */
  predicate Lawful(history: seq<int>, requests: int, window: int) {
    && Ordered(history)
    && forall i :: 0 <= i < |history| ==> Allows(history[..i], requests, window, history[i])
  }

  /** The bucket is the end of the history, and what it lacks has left the window for good. */
  predicate Fits(bucket: seq<int>, history: seq<int>, window: int, clock: int) {
    && Ordered(history)
    && (history != [] ==> history[|history| - 1] <= clock)
    && |bucket| <= |history|
    && bucket == history[|history| - |bucket|..]
    && forall i :: 0 <= i < |history| - |bucket| ==> history[i] <= clock - window
  }

  class Limiter {
    const requests: int
    const window: int
    var buckets: map<string, seq<int>>
    /** Every allowed time of every key, and the time of the latest call. */
    ghost var history: map<string, seq<int>>
    ghost var clock: int

    ghost function History(key: string): seq<int>
      reads this
    {
      if key in history then history[key] else []
    }

    function Bucket(key: string): seq<int>
      reads this
    {
      if key in buckets then buckets[key] else []
    }

    ghost predicate Valid()
      reads this
    {
      forall key: string :: Fits(Bucket(key), History(key), window, clock) && Lawful(History(key), requests, window)
    }

    constructor (requests: int, window: int, now: int)
      ensures Valid() && this.requests == requests && this.window == window && clock == now
      ensures forall key: string :: History(key) == []
    {
      this.requests, this.window := requests, window;
      buckets, history, clock := map[], map[], now;
    }

    /** Decides one call, exactly as the specification would from the key's whole history. */
    method Allow(key: string, now: int) returns (allowed: bool)
      requires Valid() && clock <= now
      modifies this
      ensures Valid() && clock == now
      ensures allowed <==> Allows(old(History(key)), requests, window, now)
      ensures allowed <==> Within(old(History(key)), now - window, window) < requests
      ensures History(key) == if allowed then old(History(key)) + [now] else old(History(key))
      ensures forall k: string | k != key :: History(k) == old(History(k))
    {
      hide Fits, Lawful, Allows;
      assert Fits(Bucket(key), History(key), window, clock) && Lawful(History(key), requests, window);
      LaterFits(now);
      if key !in buckets {
        buckets := buckets[key := []];
      }
      var timestamps := buckets[key];
      ghost var past := History(key);
      var validTimestamps := Prune(timestamps, now - window);
      PruningFits(timestamps, past, window, clock, now);
      AllowsMeans(past, requests, window, now);
      WindowCounts(timestamps, past, window, clock, now);
      allowed := |validTimestamps| < requests;
      if allowed {
        AllowedFits(validTimestamps, past, requests, window, now);
        validTimestamps := validTimestamps + [now];
        history := history[key := past + [now]];
      }
      buckets := buckets[key := validTimestamps];
      clock := now;
      forall k: string
        ensures Fits(Bucket(k), History(k), window, now) && Lawful(History(k), requests, window)
      {
        if k != key {
          assert Bucket(k) == old(Bucket(k)) && History(k) == old(History(k));
        }
      }
    }

    /** Drops the times that have left the window. */
    static method Prune(timestamps: seq<int>, windowStart: int) returns (validTimestamps: seq<int>)
      ensures validTimestamps == After(timestamps, windowStart)
    {
      validTimestamps := [];
      for i := 0 to |timestamps|
        invariant validTimestamps == After(timestamps[..i], windowStart)
      {
        assert timestamps[..i + 1][..i] == timestamps[..i];
        if timestamps[i] > windowStart {
          validTimestamps := validTimestamps + [timestamps[i]];
        }
      }
      assert timestamps[..|timestamps|] == timestamps;
    }

    /** What fits at one moment fits at any later one. */
    lemma LaterFits(now: int)
      requires Valid() && clock <= now
      ensures forall key: string ::
                Fits(Bucket(key), History(key), window, now) && Lawful(History(key), requests, window)
    {
      forall key: string
        ensures Fits(Bucket(key), History(key), window, now) && Lawful(History(key), requests, window)
      {
        assert Fits(Bucket(key), History(key), window, clock);
      }
    }

    /** No call was allowed within the last two windows. */
    predicate Stale(bucket: seq<int>, now: int) {
      bucket == [] || bucket[|bucket| - 1] < now - window * 2
    }

    /** Drops buckets that are empty or whose last allowed call is two windows old; no decision changes. */
    method Cleanup(now: int)
      requires Valid() && clock <= now
      modifies this
      ensures Valid() && clock == now
      ensures forall key: string :: History(key) == old(History(key))
      ensures forall key: string ::
                key in buckets <==>
                key in old(buckets)
                && var bucket := old(buckets)[key]; bucket != [] && bucket[|bucket| - 1] >= now - 2 * window
      ensures forall key <- buckets :: buckets[key] == old(buckets)[key]
    {
      var cutoff := now - window * 2;
      var todo := buckets.Keys;
      hide Fits, Lawful;
      LaterFits(now);
      clock := now;
      forall key: string
        ensures Fits(Bucket(key), History(key), window, now)
      {
        assert Bucket(key) == old(Bucket(key)) && History(key) == old(History(key));
      }
      while todo != {}
        invariant todo <= buckets.Keys <= old(buckets).Keys && clock == now && history == old(history)
        invariant forall key <- buckets :: buckets[key] == old(buckets)[key]
        invariant forall key <- old(buckets) ::
                    key in buckets <==> key in todo || !Stale(old(buckets)[key], now)
        invariant forall key: string :: Fits(Bucket(key), History(key), window, now)
        decreases todo
      {
        var key :| key in todo;
        todo := todo - {key};
        var b := buckets[key];
        assert Fits(Bucket(key), History(key), window, now);
        if b == [] || b[|b| - 1] < cutoff {
          label before:
          StaleFits(b, History(key), window, now);
          buckets := buckets - {key};
          forall k: string
            ensures Fits(Bucket(k), History(k), window, now)
          {
            assert History(k) == old@before(History(k)) && (k != key ==> Bucket(k) == old@before(Bucket(k)));
          }
        }
      }
      forall k: string
        ensures Fits(Bucket(k), History(k), window, now) && Lawful(History(k), requests, window)
      {
        assert History(k) == old(History(k));
      }
    }
  }

  lemma AllowsMeans(history: seq<int>, requests: int, window: int, now: int)
    ensures Allows(history, requests, window, now) <==> |After(history, now - window)| < requests
  {}

  lemma {:induction false} AfterAppend(a: seq<int>, b: seq<int>, start: int)
    ensures After(a + b, start) == After(a, start) + After(b, start)
  {
    if b == [] {
      assert a + b == a;
    } else {
      assert (a + b)[..|a + b| - 1] == a + b[..|b| - 1];
      AfterAppend(a, b[..|b| - 1], start);
    }
  }

  lemma {:induction false} AfterNone(times: seq<int>, start: int)
    requires forall i :: 0 <= i < |times| ==> times[i] <= start
    ensures After(times, start) == []
  {
    if times != [] {
      AfterNone(times[..|times| - 1], start);
    }
  }

  lemma {:induction false} AfterAll(times: seq<int>, start: int)
    requires forall i :: 0 <= i < |times| ==> times[i] > start
    ensures After(times, start) == times
  {
    if times != [] {
      AfterAll(times[..|times| - 1], start);
    }
  }

  /** Of an ordered sequence, the times after a moment are its end. */
  lemma {:induction false} AfterIsSuffix(times: seq<int>, start: int) returns (cut: nat)
    requires Ordered(times)
    ensures cut <= |times| && After(times, start) == times[cut..]
    ensures forall i :: 0 <= i < cut ==> times[i] <= start
  {
    if times == [] {
      cut := 0;
    } else if times[|times| - 1] > start {
      var init := times[..|times| - 1];
      cut := AfterIsSuffix(init, start);
      assert init[cut..] + [times[|times| - 1]] == times[cut..];
    } else {
      AfterNone(times, start);
      cut := |times|;
    }
  }

  lemma SuffixFits(history: seq<int>, cut: nat, window: int, now: int)
    requires Ordered(history) && (history != [] ==> history[|history| - 1] <= now)
    requires cut <= |history| && forall i :: 0 <= i < cut ==> history[i] <= now - window
    ensures Fits(history[cut..], history, window, now)
  {}

  lemma DroppedNeverCounts(bucket: seq<int>, history: seq<int>, start: int)
    requires |bucket| <= |history| && bucket == history[|history| - |bucket|..]
    requires forall i :: 0 <= i < |history| - |bucket| ==> history[i] <= start
    ensures After(bucket, start) == After(history, start)
  {
    var dropped := history[..|history| - |bucket|];
    assert history == dropped + bucket;
    AfterAppend(dropped, bucket, start);
    AfterNone(dropped, start);
  }

  /** Pruning a bucket at a later time keeps exactly what the whole history has in the window. */
  lemma PruningFits(bucket: seq<int>, history: seq<int>, window: int, clock: int, now: int)
    requires Fits(bucket, history, window, clock) && clock <= now
    ensures After(bucket, now - window) == After(history, now - window)
    ensures Fits(After(bucket, now - window), history, window, now)
  {
    hide After;
    DroppedNeverCounts(bucket, history, now - window);
    var cut := AfterIsSuffix(history, now - window);
    SuffixFits(history, cut, window, now);
  }

  lemma LawfulNext(history: seq<int>, requests: int, window: int, now: int)
    requires Lawful(history, requests, window) && Allows(history, requests, window, now)
    requires history != [] ==> history[|history| - 1] <= now
    ensures Lawful(history + [now], requests, window)
  {
    hide Allows;
    var h := history + [now];
    assert history[..|history|] == history;
    forall i | 0 <= i < |h|
      ensures Allows(h[..i], requests, window, h[i])
    {
      assert h[..i] == history[..i];
    }
  }

  lemma AllowedFits(bucket: seq<int>, history: seq<int>, requests: int, window: int, now: int)
    requires Fits(bucket, history, window, now) && Lawful(history, requests, window)
    requires Allows(history, requests, window, now)
    ensures Fits(bucket + [now], history + [now], window, now) && Lawful(history + [now], requests, window)
  {
    hide Allows;
    LawfulNext(history, requests, window, now);
    var cut := |history| - |bucket|;
    assert (history + [now])[cut..] == bucket + [now];
    SuffixFits(history + [now], cut, window, now);
  }

  lemma StaleFits(bucket: seq<int>, history: seq<int>, window: int, now: int)
    requires Fits(bucket, history, window, now)
    requires bucket == [] || bucket[|bucket| - 1] < now - window * 2
    ensures Fits([], history, window, now)
  {
    if bucket != [] {
      assert history[|history| - 1] == bucket[|bucket| - 1] && history[|history| - 1] in history;
    }
  }

  // ----- The limit over the whole run -----

  /** How many of the times lie in the window that starts after a moment. */
  function Within(times: seq<int>, start: int, window: int): nat {
    if times == [] then 0
    else
      var t := times[|times| - 1];
      Within(times[..|times| - 1], start, window) + if start < t <= start + window then 1 else 0
  }

  /** With no time beyond the window's end, its times are those after its start. */
  lemma {:induction false} WithinIsAfter(times: seq<int>, start: int, window: int)
    requires forall i :: 0 <= i < |times| ==> times[i] <= start + window
    ensures Within(times, start, window) == |After(times, start)|
  {
    if times != [] {
      WithinIsAfter(times[..|times| - 1], start, window);
    }
  }

  /** The window that ends now holds the times after its start. */
  lemma WindowCounts(bucket: seq<int>, history: seq<int>, window: int, clock: int, now: int)
    requires Fits(bucket, history, window, clock) && clock <= now
    ensures Within(history, now - window, window) == |After(history, now - window)|
  {
    WithinIsAfter(history, now - window, window);
  }

  lemma {:induction false} WithinAfter(times: seq<int>, start: int, window: int, from: int)
    requires from <= start
    ensures Within(times, start, window) <= |After(times, from)|
  {
    if times != [] {
      WithinAfter(times[..|times| - 1], start, window, from);
    }
  }

  /** Every window of the configured length, wherever it starts, holds at most the configured number of calls. */
  lemma {:induction false} WindowLimit(history: seq<int>, requests: int, window: int, start: int)
    requires Lawful(history, requests, window)
    ensures Within(history, start, window) <= if requests < 0 then 0 else requests
  {
    if history != [] {
      var n := |history| - 1;
      var init, t := history[..n], history[n];
      assert Allows(init, requests, window, t);
      if start < t <= start + window {
        WithinAfter(init, start, window, t - window);
      } else {
        forall i | 0 <= i < n
          ensures Allows(init[..i], requests, window, init[i])
        {
          assert init[..i] == history[..i];
        }
        WindowLimit(init, requests, window, start);
      }
    }
  }
}
