/** The tRPC set-up (packages/server/src/trpc/trpc.ts): the error formatter, and the
    fixed-window rate limiter every protected procedure passes through. The limiter's
    module-level map is the state of a `RateLimiter` object; the clock is a parameter,
    and the periodic clean-up is the `Sweep` method. */
module Trpc {
  import opened Wrappers
  import opened JsStrings
  import opened Errors

  // ---------------------------------------------------------------------------
  // errorFormatter
  // ---------------------------------------------------------------------------

  /** The `data` part of an error's wire shape; `zodError` is what the formatter adds. */
  datatype ShapeData = ShapeData(code: ErrorCode, httpStatus: int, path: Option<string>, zodError: Option<Cause>)

  /** The wire shape of an error. */
  datatype ErrorShape = ErrorShape(message: string, code: int, data: ShapeData)

  /** `errorFormatter`: the default shape, with `zodError` set to the error's cause when
      the error is a BAD_REQUEST that has one, and to `null` otherwise. */
  function FormatError(shape: ErrorShape, error: TrpcError): (r: ErrorShape)
    ensures r.message == shape.message && r.code == shape.code
    ensures r.data.code == shape.data.code && r.data.httpStatus == shape.data.httpStatus
      && r.data.path == shape.data.path
    ensures r.data.zodError.Some? <==> error.code == BadRequest && error.cause != NoCause
    ensures r.data.zodError.Some? ==> r.data.zodError.value == error.cause
  {
    var zodError := if error.code == BadRequest && error.cause != NoCause then Some(error.cause) else None;
    shape.(data := shape.data.(zodError := zodError))
  }

  // ---------------------------------------------------------------------------
  // rateLimitMiddleware
  // ---------------------------------------------------------------------------

  /** The length of a window, in milliseconds. */
  const WindowMs: int := 60 * 1000

  /** What the limiter keeps per client: requests counted in the window, and the time
      after which the window is over. */
  datatype Window = Window(count: int, resetTime: int)

  /** A window still covers `now` up to and including its reset time. */
  predicate Live(w: Window, now: int) {
    now <= w.resetTime
  }

  /** `ctx.req.ip || ctx.req.connection.remoteAddress || "unknown"`: the first of the
      two addresses that is present and non-empty. */
  function ClientKey(ip: Option<string>, remoteAddress: Option<string>): (r: string)
    ensures r != []
    ensures ip.Some? && ip.value != [] ==> r == ip.value
    ensures !(ip.Some? && ip.value != []) && remoteAddress.Some? && remoteAddress.value != [] ==>
      r == remoteAddress.value
    ensures !(ip.Some? && ip.value != []) && !(remoteAddress.Some? && remoteAddress.value != []) ==>
      r == "unknown"
  {
    if ip.Some? && ip.value != [] then ip.value
    else if remoteAddress.Some? && remoteAddress.value != [] then remoteAddress.value
    else "unknown"
  }

  /** The error a rejected request is thrown. */
  function RateLimitError(maxRequests: int): (e: TrpcError)
    ensures e.code == TooManyRequests && e.cause == NoCause
  {
    TrpcError(TooManyRequests, "Rate limit exceeded: " + IntToDecimal(maxRequests) + " requests per minute", NoCause)
  }

  /** The state after one request, and whether it is let through. */
  datatype Decision = Decision(counts: map<string, Window>, admitted: bool)

  /** One request from `key` at `now`: a client without a live window opens a new one
      and is let through; otherwise its count goes up by one, even when the request is
      then refused, and it is refused once the count exceeds `maxRequests`. No other
      client's entry changes. */
  function Check(counts: map<string, Window>, key: string, now: int, maxRequests: int): (d: Decision)
    ensures key in d.counts && d.counts - {key} == counts - {key}
    ensures key !in counts || !Live(counts[key], now) ==>
      d.counts[key] == Window(1, now + WindowMs) && d.admitted
    ensures key in counts && Live(counts[key], now) ==>
      d.counts[key] == Window(counts[key].count + 1, counts[key].resetTime)
      && (d.admitted <==> counts[key].count + 1 <= maxRequests)
  {
    if key !in counts || now > counts[key].resetTime then
      Decision(counts[key := Window(1, now + WindowMs)], true)
    else
      var w := counts[key];
      Decision(counts[key := w.(count := w.count + 1)], w.count + 1 <= maxRequests)
  }

  /** The entries the sweep at `now` keeps: those whose window still covers `now`. */
  function Expire(counts: map<string, Window>, now: int): (r: map<string, Window>)
    ensures forall k :: k in r <==> k in counts && Live(counts[k], now)
    ensures forall k :: k in r ==> r[k] == counts[k]
  {
    map k | k in counts && Live(counts[k], now) :: counts[k]
  }

  /** Every stored window has counted at least the request that opened it. */
  predicate CountsPositive(counts: map<string, Window>) {
    forall k :: k in counts ==> counts[k].count >= 1
  }

  /** The limiter's state: the module-level `requestCounts` map. */
  class RateLimiter {
    var requestCounts: map<string, Window>

    ghost predicate Valid()
      reads this
    {
      CountsPositive(requestCounts)
    }

    constructor()
      ensures requestCounts == map[] && Valid()
    {
      requestCounts := map[];
    }

    /** The middleware's check-and-increment: `None` lets the request through, `Some`
        is the TOO_MANY_REQUESTS error it throws. */
    method CheckAndIncrement(key: string, now: int, maxRequests: int) returns (error: Option<TrpcError>)
      requires Valid()
      modifies this
      ensures Valid()
      ensures requestCounts == Check(old(requestCounts), key, now, maxRequests).counts
      ensures error.None? <==> Check(old(requestCounts), key, now, maxRequests).admitted
      ensures error.Some? ==> error.value == RateLimitError(maxRequests)
    {
      if key !in requestCounts || now > requestCounts[key].resetTime {
        requestCounts := requestCounts[key := Window(1, now + WindowMs)];
        error := None;
      } else {
        var clientData := requestCounts[key];
        clientData := clientData.(count := clientData.count + 1);
        requestCounts := requestCounts[key := clientData];
        if clientData.count > maxRequests {
          error := Some(RateLimitError(maxRequests));
        } else {
          error := None;
        }
      }
    }

    /** The periodic clean-up: walk the entries and delete those whose window is over. */
    method Sweep(now: int)
      requires Valid()
      modifies this
      ensures Valid()
      ensures requestCounts == Expire(old(requestCounts), now)
    {
      var pending := requestCounts.Keys;
      while pending != {}
        invariant pending <= old(requestCounts).Keys
        invariant requestCounts ==
          map k | k in old(requestCounts) && (k in pending || Live(old(requestCounts)[k], now)) :: old(requestCounts)[k]
        decreases |pending|
      {
        var k :| k in pending;
        if now > requestCounts[k].resetTime {
          requestCounts := requestCounts - {k};
        }
        pending := pending - {k};
      }
    }
  }

  /** Sweeping before a request changes neither whether it is let through nor the
      caller's new entry, and every entry that survives a later sweep is the same. */
  lemma SweepKeepsDecisions(counts: map<string, Window>, t: int, key: string, now: int, maxRequests: int)
    requires t <= now
    ensures Check(Expire(counts, t), key, now, maxRequests).admitted == Check(counts, key, now, maxRequests).admitted
    ensures Check(Expire(counts, t), key, now, maxRequests).counts[key] == Check(counts, key, now, maxRequests).counts[key]
    ensures Expire(Check(Expire(counts, t), key, now, maxRequests).counts, t)
         == Expire(Check(counts, key, now, maxRequests).counts, t)
  {
    var e := Expire(counts, t);
    var a := Check(e, key, now, maxRequests).counts;
    var b := Check(counts, key, now, maxRequests).counts;
    assert a[key] == b[key];
    forall k ensures k in Expire(a, t) <==> k in Expire(b, t) {
      if k != key {
        assert k in a <==> k in e;
        assert k in b <==> k in counts;
      }
    }
  }

  /** The result of a sequence of requests from one client: the final state and how many
      were let through. */
  datatype Run = Run(counts: map<string, Window>, admitted: nat)

  function Replay(counts: map<string, Window>, key: string, times: seq<int>, maxRequests: int): Run
    decreases |times|
  {
    if times == [] then Run(counts, 0)
    else
      var d := Check(counts, key, times[0], maxRequests);
      var rest := Replay(d.counts, key, times[1..], maxRequests);
      Run(rest.counts, rest.admitted + if d.admitted then 1 else 0)
  }

  /** How many of `n` more requests fit under `maxRequests` after `used` were counted. */
  function Room(maxRequests: int, used: int, n: nat): (r: nat)
    ensures r <= n
    ensures used >= maxRequests ==> r == 0
  {
    if maxRequests - used <= 0 then 0
    else if n <= maxRequests - used then n
    else maxRequests - used
  }

  /** Inside a window that covers every request, each request is counted and only those
      that keep the count within `maxRequests` get through. */
  lemma {:induction false} AdmissionsInOpenWindow(counts: map<string, Window>, key: string, times: seq<int>, maxRequests: int)
    requires key in counts
    requires forall i :: 0 <= i < |times| ==> times[i] <= counts[key].resetTime
    ensures key in Replay(counts, key, times, maxRequests).counts
    ensures Replay(counts, key, times, maxRequests).counts[key]
         == Window(counts[key].count + |times|, counts[key].resetTime)
    ensures Replay(counts, key, times, maxRequests).admitted == Room(maxRequests, counts[key].count, |times|)
    decreases |times|
  {
    if times != [] {
      var w := counts[key];
      var d := Check(counts, key, times[0], maxRequests);
      assert d.counts[key] == Window(w.count + 1, w.resetTime);
      AdmissionsInOpenWindow(d.counts, key, times[1..], maxRequests);
    }
  }

  /** A window opened at `now` lets through its first request whatever `maxRequests` is,
      and in all exactly min(requests, maxRequests) requests, never more than
      max(1, maxRequests). */
  lemma AdmissionsPerWindow(counts: map<string, Window>, key: string, now: int, later: seq<int>, maxRequests: int)
    requires key !in counts || !Live(counts[key], now)
    requires forall i :: 0 <= i < |later| ==> later[i] <= now + WindowMs
    ensures Check(counts, key, now, maxRequests).admitted
    ensures Replay(counts, key, [now] + later, maxRequests).admitted
         == if maxRequests <= 1 then 1 else if 1 + |later| <= maxRequests then 1 + |later| else maxRequests
  {
    var d := Check(counts, key, now, maxRequests);
    assert ([now] + later)[1..] == later;
    AdmissionsInOpenWindow(d.counts, key, later, maxRequests);
  }

  /** A request exactly at the reset time still counts against the old window. */
  lemma ResetTimeBelongsToOldWindow(counts: map<string, Window>, key: string, maxRequests: int)
    requires key in counts && counts[key].count >= maxRequests
    ensures !Check(counts, key, counts[key].resetTime, maxRequests).admitted
    ensures Check(counts, key, counts[key].resetTime + 1, maxRequests).admitted
  {
  }

  /** Checking a request keeps every stored count positive. */
  lemma CheckKeepsCountsPositive(counts: map<string, Window>, key: string, now: int, maxRequests: int)
    requires CountsPositive(counts)
    ensures CountsPositive(Check(counts, key, now, maxRequests).counts)
  {
    var r := Check(counts, key, now, maxRequests).counts;
    forall k | k in r ensures r[k].count >= 1 {
      if k != key {
        assert k in r - {key};
      }
    }
  }
}
