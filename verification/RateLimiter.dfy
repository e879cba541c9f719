/** The fixed-window limiter in front of the AI endpoint. */
module RateLimiter {
  type Ip = string

  const REQUESTS: nat := 10
  const WINDOW: nat := 60_000

  datatype Limit = Limit(requests: nat, resetTime: int)

  /** One check: the new table and the verdict. */
  function Decide(limits: map<Ip, Limit>, ip: Ip, now: int): (r: (map<Ip, Limit>, bool)) {
    if ip !in limits || now > limits[ip].resetTime then (limits[ip := Limit(1, now + WINDOW)], true)
    else if limits[ip].requests >= REQUESTS then (limits, false)
    else (limits[ip := limits[ip].(requests := limits[ip].requests + 1)], true)
  }

  class Limiter {
    var aiRateLimits: map<Ip, Limit>

    constructor ()
      ensures aiRateLimits == map[]
    {
      aiRateLimits := map[];
    }

    method CheckAiRateLimit(ip: Ip, now: int) returns (ok: bool)
      modifies this
      ensures (aiRateLimits, ok) == Decide(old(aiRateLimits), ip, now)
      ensures ok <==>
        (ip in old(aiRateLimits) && now <= old(aiRateLimits)[ip].resetTime ==> old(aiRateLimits)[ip].requests < 10)
      ensures aiRateLimits - {ip} == old(aiRateLimits) - {ip}
    {
      if ip !in aiRateLimits || now > aiRateLimits[ip].resetTime {
        aiRateLimits := aiRateLimits[ip := Limit(1, now + WINDOW)];
        return true;
      }
      var limit := aiRateLimits[ip];
      if limit.requests >= REQUESTS { return false; }
      aiRateLimits := aiRateLimits[ip := limit.(requests := limit.requests + 1)];
      return true;
    }
  }

  datatype Request = Request(ip: Ip, at: int)

  ghost predicate InOrder(reqs: seq<Request>) {
    forall i, j :: 0 <= i < j < |reqs| ==> reqs[i].at <= reqs[j].at
  }

  ghost predicate Sane(limits: map<Ip, Limit>) {
    forall ip :: ip in limits ==> 1 <= limits[ip].requests <= REQUESTS
  }

  function After(limits: map<Ip, Limit>, q: Request): map<Ip, Limit> { Decide(limits, q.ip, q.at).0 }

  /** Accepted requests of one address between two instants, both included. */
  function Accepted(limits: map<Ip, Limit>, reqs: seq<Request>, ip: Ip, from: int, to: int): nat
    decreases |reqs|
  {
    if reqs == [] then 0
    else
      var q := reqs[0];
      (if q.ip == ip && from <= q.at <= to && Decide(limits, q.ip, q.at).1 then 1 else 0)
      + Accepted(After(limits, q), reqs[1..], ip, from, to)
  }

  lemma {:induction false} NothingLater(limits: map<Ip, Limit>, reqs: seq<Request>, ip: Ip, from: int, to: int)
    requires forall i :: 0 <= i < |reqs| ==> reqs[i].at > to
    ensures Accepted(limits, reqs, ip, from, to) == 0
    decreases |reqs|
  {
    if reqs != [] { NothingLater(After(limits, reqs[0]), reqs[1..], ip, from, to); }
  }

  /** Windows of one address open at least this far apart: a window still admits
      at the very end of its minute, and the clock counts whole milliseconds. */
  const STRIDE: nat := WINDOW + 1

  /** How many windows can open within `d` milliseconds after one has ended. */
  function Windows(d: int): nat { if d <= 0 then 0 else (d - 1) / STRIDE + 1 }

  lemma {:induction false} OneStrideLater(d: int, d': int)
    requires d >= 1 && d' <= d - STRIDE
    ensures Windows(d') + 1 <= Windows(d)
  {
    if d' > 0 {
      assert (d - 1 - STRIDE) / STRIDE == (d - 1) / STRIDE - 1;
      Quotients(d' - 1, d - 1 - STRIDE);
    }
  }

  lemma {:induction false} Quotients(a: nat, b: nat)
    requires a <= b
    ensures a / STRIDE <= b / STRIDE
  {
  }

  lemma {:induction false} WindowsGrow(a: int, b: int)
    requires a <= b
    ensures Windows(a) <= Windows(b)
  {
    if a > 0 { Quotients(a - 1, b - 1); }
  }

  /** While a window is open, it admits what is left of its ten, and after it at
      most ten for each further window that opens before `to`. */
  lemma {:induction false} InOpenWindow(limits: map<Ip, Limit>, reqs: seq<Request>, ip: Ip, from: int, to: int)
    requires InOrder(reqs) && Sane(limits) && ip in limits
    ensures Accepted(limits, reqs, ip, from, to)
         <= REQUESTS - limits[ip].requests + REQUESTS * Windows(to - limits[ip].resetTime)
    decreases |reqs|
  {
    if reqs != [] {
      var q := reqs[0];
      var next := After(limits, q);
      if q.at > to {
        NothingLater(limits, reqs, ip, from, to);
      } else {
        InOpenWindow(next, reqs[1..], ip, from, to);
        if q.ip == ip && q.at > limits[ip].resetTime {
          OneStrideLater(to - limits[ip].resetTime, to - next[ip].resetTime);
        }
      }
    }
  }

  /** The most requests of an address that can be accepted within `len`
      milliseconds, both ends included. */
  function Most(len: nat): nat {
    REQUESTS * (len / STRIDE + 1) + if len % STRIDE == 0 then 0 else REQUESTS - 1
  }

  lemma {:induction false} WindowsIn(len: nat)
    ensures Windows(len) == if len % STRIDE == 0 then len / STRIDE else len / STRIDE + 1
    ensures Windows(len - WINDOW) == len / STRIDE
  {
    var q, r := len / STRIDE, len % STRIDE;
    assert len == q * STRIDE + r;
    if r == 0 {
      if q > 0 { DivideParts(q - 1, STRIDE - 1); assert len - 1 == (q - 1) * STRIDE + (STRIDE - 1); }
    } else {
      DivideParts(q, r - 1);
    }
    if q > 0 {
      DivideParts(q - 1, r);
      assert len - WINDOW - 1 == (q - 1) * STRIDE + r;
    }
  }

  lemma {:induction false} DivideParts(q: nat, r: nat)
    requires r < STRIDE
    ensures (q * STRIDE + r) / STRIDE == q && (q * STRIDE + r) % STRIDE == r
  {
  }

  /** In any interval an address gets no more than that through. */
  lemma {:induction false} BoundedInAnyInterval(limits: map<Ip, Limit>, reqs: seq<Request>, ip: Ip, from: int, len: nat)
    requires InOrder(reqs) && Sane(limits)
    ensures Accepted(limits, reqs, ip, from, from + len) <= Most(len)
    decreases |reqs|
  {
    WindowsIn(len);
    if reqs != [] {
      var q := reqs[0];
      var to := from + len;
      var next := After(limits, q);
      if q.at > to {
        NothingLater(limits, reqs, ip, from, to);
      } else if q.at >= from && ip in limits && limits[ip].resetTime >= from {
        InOpenWindow(limits, reqs, ip, from, to);
        WindowsGrow(to - limits[ip].resetTime, len);
      } else if q.at >= from && q.ip == ip {
        assert next[ip] == Limit(1, q.at + WINDOW);
        InOpenWindow(next, reqs[1..], ip, from, to);
        WindowsGrow(to - next[ip].resetTime, len - WINDOW);
      } else {
        BoundedInAnyInterval(next, reqs[1..], ip, from, len);
      }
    }
  }

  /** In k minutes that is at most 10k + 9, and exactly so up to 60000 minutes. */
  lemma {:induction false} MostInMinutes(k: nat)
    requires k >= 1
    ensures Most(k * 60_000) <= 10 * k + 9
    ensures Most(k * 60_000) == 10 * k + 9 <==> k <= 60_000
  {
    var len := k * WINDOW;
    if k <= STRIDE {
      assert len == (k - 1) * STRIDE + (STRIDE - k);
      DivideParts(k - 1, STRIDE - k);
    } else {
      FewerWindows(k);
    }
  }

  lemma {:induction false} FewerWindows(k: nat)
    requires k > STRIDE
    ensures k * WINDOW / STRIDE <= k - 2
  {
    var q := k * WINDOW / STRIDE;
    assert q * STRIDE <= k * WINDOW < (k - 1) * STRIDE;
  }

  // ----- The bound is met -----

  function Burst(ip: Ip, at: int, n: nat): seq<Request> { seq(n, _ => Request(ip, at)) }

  /** n requests at one instant inside an open window with room for them. */
  lemma {:induction false} BurstAccepted(
    limits: map<Ip, Limit>, ip: Ip, at: int, n: nat, rest: seq<Request>, from: int, to: int)
    requires ip in limits && at <= limits[ip].resetTime && limits[ip].requests + n <= REQUESTS
    ensures Accepted(limits, Burst(ip, at, n) + rest, ip, from, to)
         == (if from <= at <= to then n else 0)
            + Accepted(limits[ip := limits[ip].(requests := limits[ip].requests + n)], rest, ip, from, to)
    decreases n
  {
    var reqs := Burst(ip, at, n) + rest;
    if n == 0 {
      assert reqs == rest;
      assert limits[ip := limits[ip].(requests := limits[ip].requests + 0)] == limits;
    } else {
      assert reqs[0] == Request(ip, at);
      assert reqs[1..] == Burst(ip, at, n - 1) + rest;
      var next := After(limits, reqs[0]);
      BurstAccepted(next, ip, at, n - 1, rest, from, to);
      assert next[ip := next[ip].(requests := next[ip].requests + (n - 1))]
          == limits[ip := limits[ip].(requests := limits[ip].requests + n)];
    }
  }

  lemma {:induction false} OpeningBurst(
    limits: map<Ip, Limit>, ip: Ip, at: int, n: nat, rest: seq<Request>, from: int, to: int)
    requires 1 <= n <= REQUESTS && (ip in limits ==> at > limits[ip].resetTime)
    ensures Accepted(limits, Burst(ip, at, n) + rest, ip, from, to)
         == (if from <= at <= to then n else 0)
            + Accepted(limits[ip := Limit(n, at + WINDOW)], rest, ip, from, to)
  {
    var reqs := Burst(ip, at, n) + rest;
    assert reqs[0] == Request(ip, at);
    assert reqs[1..] == Burst(ip, at, n - 1) + rest;
    BurstAccepted(After(limits, reqs[0]), ip, at, n - 1, rest, from, to);
    assert limits[ip := Limit(1, at + WINDOW)][ip := Limit(n, at + WINDOW)] == limits[ip := Limit(n, at + WINDOW)];
  }

  /** n windows in a row, each used up in the instant it opens. */
  function Chain(ip: Ip, at: int, n: nat): seq<Request>
    decreases n
  {
    if n == 0 then [] else Burst(ip, at, REQUESTS) + Chain(ip, at + STRIDE, n - 1)
  }

  lemma {:induction false} ChainAccepted(limits: map<Ip, Limit>, ip: Ip, at: int, n: nat, from: int, to: int)
    requires ip in limits ==> at > limits[ip].resetTime
    requires from <= at && (n > 0 ==> at + (n - 1) * STRIDE <= to)
    ensures Accepted(limits, Chain(ip, at, n), ip, from, to) == REQUESTS * n
    decreases n
  {
    if n > 0 {
      var rest := Chain(ip, at + STRIDE, n - 1);
      OpeningBurst(limits, ip, at, REQUESTS, rest, from, to);
      assert at <= to by { assert (n - 1) * STRIDE >= 0; }
      ChainAccepted(limits[ip := Limit(REQUESTS, at + WINDOW)], ip, at + STRIDE, n - 1, from, to);
    }
  }

  lemma {:induction false} ChainInOrder(ip: Ip, at: int, n: nat)
    ensures InOrder(Chain(ip, at, n)) && forall i :: 0 <= i < |Chain(ip, at, n)| ==> Chain(ip, at, n)[i].at >= at
    decreases n
  {
    if n > 0 { ChainInOrder(ip, at + STRIDE, n - 1); }
  }

  /** One request a minute before, nine at `from`, and then window after window. */
  function Squeeze(ip: Ip, from: int, n: nat): seq<Request> {
    Burst(ip, from - WINDOW, 1) + (Burst(ip, from, REQUESTS - 1) + Chain(ip, from + 1, n))
  }

  lemma {:induction false} BurstBefore(ip: Ip, at: int, n: nat, rest: seq<Request>)
    requires InOrder(rest) && forall i :: 0 <= i < |rest| ==> rest[i].at >= at
    ensures InOrder(Burst(ip, at, n) + rest)
    ensures forall i :: 0 <= i < n + |rest| ==> (Burst(ip, at, n) + rest)[i].at >= at
  {
  }

  lemma {:induction false} SqueezeInOrder(ip: Ip, from: int, n: nat)
    ensures InOrder(Squeeze(ip, from, n))
  {
    var chain := Chain(ip, from + 1, n);
    ChainInOrder(ip, from + 1, n);
    BurstBefore(ip, from, REQUESTS - 1, chain);
    BurstBefore(ip, from - WINDOW, 1, Burst(ip, from, REQUESTS - 1) + chain);
  }

  lemma {:induction false} SqueezeAccepted(ip: Ip, from: int, n: nat, to: int)
    requires n > 0 && from + 1 + (n - 1) * STRIDE <= to
    ensures Accepted(map[], Squeeze(ip, from, n), ip, from, to) == REQUESTS * n + REQUESTS - 1
  {
    var chain := Chain(ip, from + 1, n);
    OpeningBurst(map[], ip, from - WINDOW, 1, Burst(ip, from, REQUESTS - 1) + chain, from, to);
    var one: map<Ip, Limit> := map[][ip := Limit(1, from)];
    BurstAccepted(one, ip, from, REQUESTS - 1, chain, from, to);
    ChainAccepted(one[ip := Limit(REQUESTS, from)], ip, from + 1, n, from, to);
    assert from <= to by { assert (n - 1) * STRIDE >= 0; }
  }

  /** Every interval has requests that reach the bound. */
  lemma {:induction false} BoundIsReached(ip: Ip, from: int, len: nat) returns (reqs: seq<Request>)
    ensures InOrder(reqs) && Accepted(map[], reqs, ip, from, from + len) == Most(len)
  {
    var n := len / STRIDE + 1;
    assert len == (n - 1) * STRIDE + len % STRIDE;
    if len % STRIDE == 0 {
      reqs := Chain(ip, from, n);
      ChainInOrder(ip, from, n);
      ChainAccepted(map[], ip, from, n, from, from + len);
    } else {
      reqs := Squeeze(ip, from, n);
      SqueezeInOrder(ip, from, n);
      SqueezeAccepted(ip, from, n, from + len);
    }
  }

  /** For one minute that is nineteen. */
  lemma {:induction false} NineteenInOneMinute(ip: Ip, from: int) returns (reqs: seq<Request>)
    ensures InOrder(reqs) && Accepted(map[], reqs, ip, from, from + 60_000) == 19
  {
    reqs := BoundIsReached(ip, from, 60_000);
    MostInMinutes(1);
  }
}
