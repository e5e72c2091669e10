/**
 Limits of the daemon's HTTP server: the fixed-window rate limiter per peer, and the counter of active
 requests that concurrent handlers update by compare-and-swap.
 */
module RequestLimits {
  type Peer = string

  datatype RateWindow = RateWindow(started: nat, count: nat)

  datatype Limits = Limits(maxRequests: nat, window: nat)

  type Windows = map<Peer, RateWindow>

  // ---------------------------------------------------------------- the rate limiter

  /** A window is kept while the clock is inside it; a start that lies in the future is dropped. */
  predicate Current(lim: Limits, rate: RateWindow, now: nat) {
    rate.started <= now && now - rate.started < lim.window
  }

  function Retained(lim: Limits, peers: Windows, now: nat): Windows {
    map p | p in peers && Current(lim, peers[p], now) :: peers[p]
  }

  /** The decision for one request and the windows it leaves. */
  function Decide(lim: Limits, peers: Windows, peer: Peer, now: nat): (bool, Windows) {
    var kept := Retained(lim, peers, now);
    if lim.maxRequests == 0 then (false, kept)
    else
      var rate := if peer in kept then kept[peer] else RateWindow(now, 0);
      if rate.count >= lim.maxRequests then (false, kept[peer := rate])
      else (true, kept[peer := rate.(count := rate.count + 1)])
  }

  class FixedWindowRateLimiter {
    const limits: Limits
    var peers: Windows

    constructor (limits: Limits)
      ensures this.limits == limits && peers == map[]
    {
      this.limits := limits;
      peers := map[];
    }

    method Allow(peer: Peer, now: nat) returns (allowed: bool)
      modifies this
      ensures (allowed, peers) == Decide(limits, old(peers), peer, now)
    {
      peers := Retained(limits, peers, now);
      if limits.maxRequests == 0 {
        return false;
      }
      ghost var kept := peers;
      if peer !in peers {
        peers := peers[peer := RateWindow(now, 0)];
      }
      var rate := peers[peer];
      assert peers == kept[peer := rate];
      if rate.count >= limits.maxRequests {
        return false;
      }
      peers := peers[peer := rate.(count := rate.count + 1)];
      assert peers == kept[peer := rate.(count := rate.count + 1)];
      allowed := true;
    }
  }

  // ---------------------------------------------------------------- runs of requests

  datatype Request = Request(peer: Peer, now: nat)

  ghost function After(lim: Limits, requests: seq<Request>): Windows {
    if requests == [] then map[]
    else
      var last := requests[|requests| - 1];
      Decide(lim, After(lim, requests[..|requests| - 1]), last.peer, last.now).1
  }

  /** Whether a request is admitted after `before`. */
  ghost predicate Admits(lim: Limits, before: seq<Request>, r: Request) {
    Decide(lim, After(lim, before), r.peer, r.now).0
  }

  function Latest(requests: seq<Request>): nat {
    if requests == [] then 0 else requests[|requests| - 1].now
  }

  ghost predicate Monotone(requests: seq<Request>) {
    requests == [] ||
    (Monotone(requests[..|requests| - 1]) && Latest(requests[..|requests| - 1]) <= Latest(requests))
  }

  /** How many of the peer's requests were admitted at times from `lo` to `hi`. */
  ghost function Admitted(lim: Limits, requests: seq<Request>, peer: Peer, lo: nat, hi: nat): nat {
    if requests == [] then 0
    else
      var before, last := requests[..|requests| - 1], requests[|requests| - 1];
      Admitted(lim, before, peer, lo, hi)
      + if last.peer == peer && lo <= last.now <= hi && Admits(lim, before, last) then 1 else 0
  }

  /** What a peer has been admitted since `lo` is paid for by `q` full windows that have ended and the
      one it is in, whose start lies `q` windows beyond the first that can reach `lo`. */
  ghost predicate Budget(lim: Limits, requests: seq<Request>, peer: Peer, lo: nat, admitted: nat, q: nat) {
    var peers := After(lim, requests);
    if peer in peers then
      && peers[peer].count <= lim.maxRequests && peers[peer].started <= Latest(requests)
      && (admitted == 0 || (peers[peer].started + lim.window > lo + q * lim.window
                            && admitted <= q * lim.maxRequests + peers[peer].count))
    else
      admitted == 0 || (Latest(requests) + lim.window > lo + q * lim.window && admitted <= q * lim.maxRequests)
  }

  lemma {:induction false} BudgetHolds(lim: Limits, requests: seq<Request>, peer: Peer, lo: nat, hi: nat)
    returns (q: nat)
    requires lim.window > 0 && Monotone(requests) && Latest(requests) <= hi
    ensures Budget(lim, requests, peer, lo, Admitted(lim, requests, peer, lo, hi), q)
  {
    if requests == [] {
      q := 0;
    } else {
      var before, last := requests[..|requests| - 1], requests[|requests| - 1];
      var p := BudgetHolds(lim, before, peer, lo, hi);
      q := BudgetStep(lim, requests, peer, lo, hi, p);
    }
  }

  lemma BudgetStep(lim: Limits, requests: seq<Request>, peer: Peer, lo: nat, hi: nat, p: nat) returns (q: nat)
    requires requests != [] && lim.window > 0 && Monotone(requests) && Latest(requests) <= hi
    requires var before := requests[..|requests| - 1];
      Budget(lim, before, peer, lo, Admitted(lim, before, peer, lo, hi), p)
    ensures Budget(lim, requests, peer, lo, Admitted(lim, requests, peer, lo, hi), q)
  {
    var before, last := requests[..|requests| - 1], requests[|requests| - 1];
    var peers, admitted := After(lim, before), Admitted(lim, before, peer, lo, hi);
    var ended := peer in peers && !Current(lim, peers[peer], last.now);
    assert (p + 1) * lim.window == p * lim.window + lim.window;
    assert (p + 1) * lim.maxRequests == p * lim.maxRequests + lim.maxRequests;
    if admitted == 0 {
      q := 0;
    } else if ended {
      q := p + 1;
    } else {
      q := p;
    }
  }

  lemma MoreWindows(window: nat, k: nat, q: nat)
    requires q > k
    ensures q * window >= k * window + window
  {
    var d := q - k - 1;
    assert q * window == k * window + window + d * window;
  }

  lemma WindowsFit(window: nat, lo: nat, k: nat, q: nat)
    requires window > 0 && lo + k * window + window > lo + q * window
    ensures q <= k
  {
    if q > k {
      MoreWindows(window, k, q);
    }
  }

  lemma BudgetGives(lim: Limits, requests: seq<Request>, peer: Peer, lo: nat, admitted: nat, q: nat)
    requires Budget(lim, requests, peer, lo, admitted, q) && admitted > 0
    ensures Latest(requests) + lim.window > lo + q * lim.window
    ensures admitted <= q * lim.maxRequests + lim.maxRequests
  {
  }

  lemma PaidFor(q: nat, k: nat, max: nat)
    requires q <= k
    ensures q * max + max <= (k + 1) * max
  {
    assert (k + 1) * max == q * max + max + (k - q) * max;
  }

  lemma BudgetBounds(lim: Limits, requests: seq<Request>, peer: Peer, lo: nat, k: nat, admitted: nat, q: nat)
    requires lim.window > 0 && Latest(requests) <= lo + k * lim.window
    requires Budget(lim, requests, peer, lo, admitted, q)
    ensures admitted <= (k + 1) * lim.maxRequests
  {
    if admitted > 0 {
      BudgetGives(lim, requests, peer, lo, admitted, q);
      WindowsFit(lim.window, lo, k, q);
      PaidFor(q, k, lim.maxRequests);
    }
  }

  /** With a clock that does not go back, a peer is admitted at most `(k + 1) * max` times in any
      interval as long as `k` windows, both ends included. */
  lemma {:induction false} AdmissionsBounded(lim: Limits, requests: seq<Request>, peer: Peer, lo: nat, k: nat)
    requires lim.window > 0 && Monotone(requests)
    ensures Admitted(lim, requests, peer, lo, lo + k * lim.window) <= (k + 1) * lim.maxRequests
  {
    var hi := lo + k * lim.window;
    if requests == [] {
    } else if Latest(requests) > hi {
      AdmissionsBounded(lim, requests[..|requests| - 1], peer, lo, k);
    } else {
      var q := BudgetHolds(lim, requests, peer, lo, hi);
      BudgetBounds(lim, requests, peer, lo, k, Admitted(lim, requests, peer, lo, hi), q);
    }
  }

  /** A window of no length limits nothing. */
  lemma ZeroWindowIsNoLimit(lim: Limits, before: seq<Request>, r: Request)
    requires lim.window == 0
    ensures Admits(lim, before, r) <==> lim.maxRequests > 0
  {
  }

  // ---------------------------------------------------------------- refusals

  lemma {:induction false} NoneLater(lim: Limits, requests: seq<Request>, peer: Peer, lo: nat, hi: nat)
    requires Monotone(requests) && Latest(requests) < lo
    ensures Admitted(lim, requests, peer, lo, hi) == 0
  {
    if requests != [] {
      NoneLater(lim, requests[..|requests| - 1], peer, lo, hi);
    }
  }

  /** A peer's count is the number of its admissions since its window began. */
  lemma {:induction false} CountIsAdmissions(lim: Limits, requests: seq<Request>, peer: Peer, hi: nat)
    requires lim.window > 0 && Monotone(requests) && Latest(requests) <= hi
    ensures var peers := After(lim, requests);
      if peer in peers then
        && Current(lim, peers[peer], Latest(requests))
        && peers[peer].count == Admitted(lim, requests, peer, peers[peer].started, hi)
      else requests == [] || Admitted(lim, requests, peer, Latest(requests), hi) == 0
  {
    if requests != [] {
      var before, last := requests[..|requests| - 1], requests[|requests| - 1];
      CountIsAdmissions(lim, before, peer, hi);
      if Latest(before) < last.now {
        NoneLater(lim, before, peer, last.now, hi);
      }
    }
  }

  /** A request is refused exactly when the limit is zero or the peer has been admitted `max` times
      since a moment less than one window ago. */
  lemma RefusedExactly(lim: Limits, before: seq<Request>, r: Request)
    requires lim.window > 0 && Monotone(before + [r])
    ensures !Admits(lim, before, r) <==>
      lim.maxRequests == 0 || (r.peer in After(lim, before) && Current(lim, After(lim, before)[r.peer], r.now)
        && Admitted(lim, before, r.peer, After(lim, before)[r.peer].started, r.now) >= lim.maxRequests)
  {
    assert (before + [r])[..|before|] == before;
    CountIsAdmissions(lim, before, r.peer, r.now);
  }

  // ---------------------------------------------------------------- isolation

  /** The requests of one peer. */
  ghost function OwnRequests(requests: seq<Request>, peer: Peer): seq<Request> {
    if requests == [] then []
    else
      var own, last := OwnRequests(requests[..|requests| - 1], peer), requests[|requests| - 1];
      if last.peer == peer then own + [last] else own
  }

  /** The peer's window is the same among its own requests alone, unless it has ended by `now`. */
  ghost predicate SameWindow(lim: Limits, all: Windows, own: Windows, peer: Peer, now: nat) {
    if peer in all then peer in own && own[peer] == all[peer] && all[peer].started <= now
    else peer in own ==> own[peer].started + lim.window <= now
  }

  lemma OwnRequestKeepsWindow(lim: Limits, all: Windows, own: Windows, peer: Peer, before: nat, now: nat)
    requires SameWindow(lim, all, own, peer, before) && before <= now
    ensures SameWindow(lim, Decide(lim, all, peer, now).1, Decide(lim, own, peer, now).1, peer, now)
  {
  }

  lemma OtherRequestKeepsWindow(lim: Limits, all: Windows, own: Windows, peer: Peer, before: nat, other: Peer, now: nat)
    requires SameWindow(lim, all, own, peer, before) && before <= now && other != peer
    ensures SameWindow(lim, Decide(lim, all, other, now).1, own, peer, now)
  {
  }

  lemma {:induction false} OwnWindow(lim: Limits, requests: seq<Request>, peer: Peer)
    requires Monotone(requests)
    ensures SameWindow(lim, After(lim, requests), After(lim, OwnRequests(requests, peer)), peer, Latest(requests))
  {
    if requests != [] {
      var before, last := requests[..|requests| - 1], requests[|requests| - 1];
      OwnWindow(lim, before, peer);
      var own := OwnRequests(before, peer);
      if last.peer == peer {
        assert (own + [last])[..|own|] == own;
        OwnRequestKeepsWindow(lim, After(lim, before), After(lim, own), peer, Latest(before), last.now);
      } else {
        OtherRequestKeepsWindow(lim, After(lim, before), After(lim, own), peer, Latest(before), last.peer, last.now);
      }
    }
  }

  /** Peers do not affect each other: a request is admitted exactly as if its peer were alone. */
  lemma PeersAreIsolated(lim: Limits, before: seq<Request>, r: Request)
    requires Monotone(before + [r])
    ensures Admits(lim, before, r) == Admits(lim, OwnRequests(before, r.peer), r)
  {
    assert (before + [r])[..|before|] == before;
    OwnWindow(lim, before, r.peer);
  }

  // ---------------------------------------------------------------- the active-request counter

  /** A handler's way through `try_acquire_request` and its guard: the value it last saw, a live guard,
      a refusal, or a guard that has been dropped. */
  datatype Phase = Saw(current: nat) | Live | Refused | Dropped

  /** `values` lists the counter's values in the order they were written; a relaxed load may return any
      value written so far, a successful exchange always reads the last. */
  datatype Counter = Counter(values: seq<nat>, live: set<nat>, phases: map<nat, Phase>)

  datatype Action =
    | Load(id: nat, at: nat)
    | Refuse(id: nat)
    | ExchangeOk(id: nat)
    | ExchangeFails(id: nat, at: nat)
    | DropGuard(id: nat)

  function Value(c: Counter): nat {
    if c.values == [] then 0 else c.values[|c.values| - 1]
  }

  /** One atomic step of one handler; a step that is not possible changes nothing. */
  function Next(max: nat, c: Counter, a: Action): Counter {
    match a
    case Load(id, at) =>
      if id !in c.phases && at < |c.values| then c.(phases := c.phases[id := Saw(c.values[at])]) else c
    case Refuse(id) =>
      if id in c.phases && c.phases[id].Saw? && c.phases[id].current >= max
      then c.(phases := c.phases[id := Refused]) else c
    case ExchangeOk(id) =>
      if id in c.phases && c.phases[id].Saw? && c.phases[id].current < max && c.phases[id].current == Value(c)
      then Counter(c.values + [Value(c) + 1], c.live + {id}, c.phases[id := Live]) else c
    case ExchangeFails(id, at) =>
      // a weak exchange may also fail on an equal value
      if id in c.phases && c.phases[id].Saw? && c.phases[id].current < max && at < |c.values|
      then c.(phases := c.phases[id := Saw(c.values[at])]) else c
    case DropGuard(id) =>
      if id in c.phases && c.phases[id].Live?
      then Counter(c.values + [if Value(c) > 0 then Value(c) - 1 else 0xFFFF_FFFF_FFFF_FFFF], c.live - {id},
                   c.phases[id := Dropped]) else c
  }

  function Run(max: nat, actions: seq<Action>): Counter {
    if actions == [] then Counter([0], {}, map[])
    else Next(max, Run(max, actions[..|actions| - 1]), actions[|actions| - 1])
  }

  ghost predicate GuardsCounted(c: Counter) {
    && c.values != [] && Value(c) == |c.live|
    && (forall id :: id in c.live <==> id in c.phases && c.phases[id].Live?)
  }

  ghost predicate ValuesSound(max: nat, c: Counter) {
    && (forall v :: v in c.values ==> v <= max)
    && (forall id :: id in c.phases && c.phases[id].Saw? ==> c.phases[id].current in c.values)
    && (forall id :: id in c.phases && c.phases[id].Refused? ==> max in c.values)
  }

  ghost predicate CounterInv(max: nat, c: Counter) {
    GuardsCounted(c) && ValuesSound(max, c)
  }

  lemma DropCounts(c: Counter, id: nat)
    requires GuardsCounted(c) && id in c.phases && c.phases[id].Live?
    ensures GuardsCounted(Counter(c.values + [|c.live| - 1], c.live - {id}, c.phases[id := Dropped]))
  {
    assert |c.live - {id}| == |c.live| - 1;
  }

  lemma ExchangeCounts(c: Counter, id: nat)
    requires GuardsCounted(c) && id in c.phases && !c.phases[id].Live?
    ensures GuardsCounted(Counter(c.values + [Value(c) + 1], c.live + {id}, c.phases[id := Live]))
  {
    assert |c.live + {id}| == |c.live| + 1;
  }

  lemma NextCountsGuards(max: nat, c: Counter, a: Action)
    requires GuardsCounted(c)
    ensures GuardsCounted(Next(max, c, a))
  {
    match a
    case DropGuard(id) =>
      if id in c.phases && c.phases[id].Live? {
        assert id in c.live && |c.live| > 0;
        DropCounts(c, id);
      }
    case ExchangeOk(id) =>
      if Next(max, c, a) != c {
        ExchangeCounts(c, id);
      }
    case _ =>
  }

  lemma NextKeepsValues(max: nat, c: Counter, a: Action)
    requires CounterInv(max, c)
    ensures ValuesSound(max, Next(max, c, a))
  {
    assert Value(c) in c.values;
    if a.DropGuard? && a.id in c.live {
      assert |c.live| > 0;
    }
  }

  lemma {:induction false} CounterInvHolds(max: nat, actions: seq<Action>)
    ensures CounterInv(max, Run(max, actions))
  {
    if actions != [] {
      var c, a := Run(max, actions[..|actions| - 1]), actions[|actions| - 1];
      CounterInvHolds(max, actions[..|actions| - 1]);
      NextCountsGuards(max, c, a);
      NextKeepsValues(max, c, a);
    }
  }

  /** In every interleaving the counter equals the number of live guards and never exceeds the maximum,
      so a dropped guard never wraps it around. */
  lemma CounterCountsGuards(max: nat, actions: seq<Action>)
    ensures var c := Run(max, actions);
      && Value(c) == |c.live| <= max
      && forall id :: id in c.live <==> id in c.phases && c.phases[id].Live?
  {
    CounterInvHolds(max, actions);
    var c := Run(max, actions);
    assert Value(c) in c.values;
  }

  /** A handler is refused only if at some moment the maximum number of guards was live. */
  lemma RefusedOnlyWhenFull(max: nat, actions: seq<Action>, id: nat)
    requires id in Run(max, actions).phases && Run(max, actions).phases[id].Refused?
    ensures exists n: nat :: n <= |actions| && |Run(max, actions[..n]).live| == max
  {
    CounterInvHolds(max, actions);
    var n := WhenWritten(max, actions, max);
    CounterCountsGuards(max, actions[..n]);
  }

  /** Every value of the counter was its current one after some prefix of the run. */
  lemma {:induction false} WhenWritten(max: nat, actions: seq<Action>, v: nat) returns (n: nat)
    requires v in Run(max, actions).values
    ensures n <= |actions| && Value(Run(max, actions[..n])) == v
  {
    assert actions[..|actions|] == actions;
    if Value(Run(max, actions)) == v {
      n := |actions|;
    } else {
      var before := actions[..|actions| - 1];
      n := WhenWritten(max, before, v);
      assert before[..n] == actions[..n];
    }
  }


  // ---------------------------------------------------------------- what a handler may do

  /** A handler that saw the maximum, or more, is refused and cannot take a guard; one that saw less is not
      refused, and takes a guard exactly when the value it saw is still the counter's. */
  lemma HandlerSteps(max: nat, c: Counter, id: nat)
    requires id in c.phases && c.phases[id].Saw?
    ensures Next(max, c, Refuse(id)) == if c.phases[id].current >= max then c.(phases := c.phases[id := Refused]) else c
    ensures id in Next(max, c, ExchangeOk(id)).live - c.live
       <==> id !in c.live && c.phases[id].current < max && c.phases[id].current == Value(c)
    ensures c.phases[id].current >= max ==> forall at :: Next(max, c, ExchangeFails(id, at)) == c
  {
  }

  /** Alone, a handler below the maximum gets its guard, and dropping it restores the counter. */
  lemma GuardComesAndGoes(max: nat, c: Counter, id: nat)
    requires GuardsCounted(c) && id !in c.phases && Value(c) < max
    ensures var t := Next(max, Next(max, c, Load(id, |c.values| - 1)), ExchangeOk(id));
      && t.live == c.live + {id} && Value(t) == Value(c) + 1
      && Next(max, t, DropGuard(id)).live == c.live && Value(Next(max, t, DropGuard(id))) == Value(c)
  {
    assert id !in c.live;
  }
}
