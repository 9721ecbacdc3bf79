/**
 src/rate_limiter.c, over the reals and with an arbitrary clock.

 The limiter keeps one number, the sleep time it has handed out and not yet seen
 elapse.  A run is the list of requests it has served; everything the limiter
 stores is a function of that list, and the throughput bound is about it.
 */
module RateLimiting {

  /** How much unused time an idle limiter carries over, as a negative sleep. */
  const IDLE_CREDIT: real := -0.2

  /** One call: how many bytes, and the clock reading inside the call. */
  datatype Request = Request(size: nat, now: real)

  function Max(a: real, b: real): real {
    if a < b then b else a
  }

  /** The clock reading just before request `i`. */
  function Before(start: real, log: seq<Request>, i: nat): real
    requires i < |log|
  {
    if i == 0 then start else log[i - 1].now
  }

  /** Time between request `i` and its predecessor; a step backwards counts as none. */
  function Gap(start: real, log: seq<Request>, i: nat): real
    requires i < |log|
  {
    Max(0.0, log[i].now - Before(start, log, i))
  }

  /** Bytes of the requests `i..|log|`. */
  function Bytes(log: seq<Request>, i: nat): (n: nat)
    requires i <= |log|
    decreases |log|
  {
    if i == |log| then 0 else Bytes(log[..|log| - 1], i) + log[|log| - 1].size
  }

  /** Clamped time elapsed from request `i` to the last one. */
  function Elapsed(start: real, log: seq<Request>, i: nat): (t: real)
    requires i < |log|
    ensures t >= 0.0
    decreases |log|
  {
    if i == |log| - 1 then 0.0
    else Elapsed(start, log[..|log| - 1], i) + Gap(start, log, |log| - 1)
  }

  /** Backlog of requests `i..`: the time their bytes take, less the time since. */
  function Backlog(rate: real, start: real, log: seq<Request>, i: nat): real
    requires rate > 0.0 && i < |log|
  {
    Bytes(log, i) as real / rate - Elapsed(start, log, i)
  }

  /** `m` is the largest backlog of any suffix of the run. */
  ghost predicate IsMaxBacklog(rate: real, start: real, log: seq<Request>, m: real)
    requires rate > 0.0
  {
    && (exists i: nat :: i < |log| && Backlog(rate, start, log, i) == m)
    && (forall i: nat :: i < |log| ==> Backlog(rate, start, log, i) <= m)
  }

  /** The stored sleep time after a run: the max-plus recursion the code performs. */
  function Stored(rate: real, start: real, log: seq<Request>): (s: real)
    requires rate > 0.0
    decreases |log|
  {
    if log == [] then IDLE_CREDIT
    else
      var n := |log| - 1;
      Max(Stored(rate, start, log[..n]) - Gap(start, log, n), IDLE_CREDIT) + log[n].size as real / rate
  }

  class RateLimiter {
    const rate: real
    var lastModified: real
    var accumulatedSleepTime: real
    ghost const start: real
    ghost var log: seq<Request>

    ghost predicate Valid()
      reads this
    {
      && rate > 0.0
      && lastModified == (if log == [] then start else log[|log| - 1].now)
      && accumulatedSleepTime == Stored(rate, start, log)
    }

    constructor (rate: real, now: real)
      requires rate > 0.0
      ensures Valid() && log == [] && this.rate == rate && start == lastModified == now && accumulatedSleepTime == -0.2
    {
      this.rate := rate;
      lastModified, start := now, now;
      accumulatedSleepTime := IDLE_CREDIT;
      log := [];
    }

    /** Charges `size` bytes at clock reading `now`; returns how long the caller has to sleep. */
    method WaitNoSleep(size: nat, now: real) returns (timeToSleep: real)
      requires Valid()
      modifies this`lastModified, this`accumulatedSleepTime, this`log
      ensures Valid() && log == old(log) + [Request(size, now)]
      ensures timeToSleep == accumulatedSleepTime
      ensures IsMaxBacklog(rate, start, log, timeToSleep + 0.2)
    {
      hide Stored, IsMaxBacklog;
      var timeToAdd := size as real / rate;
      var elapsed := now - lastModified;
      if elapsed < 0.0 {
        elapsed := 0.0;
      }
      timeToSleep := accumulatedSleepTime;
      timeToSleep := timeToSleep - elapsed;
      if timeToSleep < IDLE_CREDIT {
        timeToSleep := IDLE_CREDIT;
      }
      timeToSleep := timeToSleep + timeToAdd;
      accumulatedSleepTime := timeToSleep;
      lastModified := now;
      log := log + [Request(size, now)];
      StoredStep(rate, start, old(log), Request(size, now));
      ClosedForm(rate, start, log);
    }
  }

  lemma StoredStep(rate: real, start: real, log: seq<Request>, next: Request)
    requires rate > 0.0
    ensures var elapsed := Max(0.0, next.now - if log == [] then start else log[|log| - 1].now);
            Stored(rate, start, log + [next]) == Max(Stored(rate, start, log) - elapsed, IDLE_CREDIT) + next.size as real / rate
  {
    assert (log + [next])[..|log|] == log;
  }

  lemma BacklogStep(rate: real, start: real, log: seq<Request>, i: nat)
    requires rate > 0.0 && i < |log|
    ensures var n := |log| - 1;
            Backlog(rate, start, log, i) ==
              (if i == n then 0.0 else Backlog(rate, start, log[..n], i) - Gap(start, log, n))
              + log[n].size as real / rate
  {
    var n := |log| - 1;
    var before, last := Bytes(log[..n], i), log[n].size;
    assert (before + last) as real / rate == before as real / rate + last as real / rate;
  }

  /**
   The closed form: the stored sleep time is the idle credit plus the largest
   backlog of any suffix of the run, whatever the clock does.
   */
  lemma {:induction false} ClosedForm(rate: real, start: real, log: seq<Request>)
    requires rate > 0.0 && log != []
    ensures IsMaxBacklog(rate, start, log, Stored(rate, start, log) + 0.2)
    decreases |log|
  {
    var n := |log| - 1;
    var m := Stored(rate, start, log) - IDLE_CREDIT;
    var prev := Stored(rate, start, log[..n]) - IDLE_CREDIT;
    if n > 0 {
      ClosedForm(rate, start, log[..n]);
    }
    forall i: nat | i < |log|
      ensures Backlog(rate, start, log, i) <= m
    {
      BacklogStep(rate, start, log, i);
    }
    BacklogStep(rate, start, log, n);
    if prev - Gap(start, log, n) > 0.0 {
      var i: nat :| i < n && Backlog(rate, start, log[..n], i) == prev;
      BacklogStep(rate, start, log, i);
    }
  }

  // ----- Throughput over a window

  /** The clock never steps backwards during the run... */
  ghost predicate NonDecreasing(nows: seq<real>) {
    forall i, j :: 0 <= i <= j < |nows| ==> nows[i] <= nows[j]
  }

  /** ...or never forwards. */
  ghost predicate NonIncreasing(nows: seq<real>) {
    forall i, j :: 0 <= i <= j < |nows| ==> nows[i] >= nows[j]
  }

  ghost predicate OneWay(nows: seq<real>) {
    NonDecreasing(nows) || NonIncreasing(nows)
  }

  /** The clock readings of a run. */
  function Readings(log: seq<Request>): (nows: seq<real>)
    ensures |nows| == |log| && forall i :: 0 <= i < |log| ==> nows[i] == log[i].now
  {
    seq(|log|, i requires 0 <= i < |log| => log[i].now)
  }

  lemma OneWayPrefix(log: seq<Request>, n: nat)
    requires OneWay(Readings(log)) && n <= |log|
    ensures OneWay(Readings(log[..n]))
  {
    var nows, prefix := Readings(log), Readings(log[..n]);
    assert forall i :: 0 <= i < n ==> prefix[i] == nows[i];
  }

  /** When the last request of the run is cleared: it sleeps only if the stored time is positive. */
  function Release(rate: real, start: real, log: seq<Request>): real
    requires rate > 0.0 && log != []
  {
    log[|log| - 1].now + Max(0.0, Stored(rate, start, log))
  }

  /** Bytes of the requests that arrive no earlier than `a` and are cleared by `b`. */
  function WindowBytes(rate: real, start: real, log: seq<Request>, a: real, b: real): nat
    requires rate > 0.0
    decreases |log|
  {
    if log == [] then 0
    else
      var last := log[|log| - 1];
      WindowBytes(rate, start, log[..|log| - 1], a, b) +
      if a <= last.now && Release(rate, start, log) <= b then last.size else 0
  }

  /** If the clock goes one way only, no more time counts as elapsed than really has. */
  lemma {:induction false} ElapsedIsReal(start: real, log: seq<Request>, i: nat)
    requires i < |log| && OneWay(Readings(log))
    ensures Elapsed(start, log, i) == Max(0.0, log[|log| - 1].now - log[i].now)
    decreases |log|
  {
    var n, nows := |log| - 1, Readings(log);
    if i < n {
      OneWayPrefix(log, n);
      ElapsedIsReal(start, log[..n], i);
      assert nows[n - 1] == log[n - 1].now && nows[n] == log[n].now && nows[i] == log[i].now;
    }
  }

  /** Requests before index `i` arrive too early to count. */
  lemma {:induction false} WindowWithinSuffix(rate: real, start: real, log: seq<Request>, a: real, b: real, i: nat)
    requires rate > 0.0 && i <= |log|
    requires forall j :: 0 <= j < i ==> log[j].now < a
    ensures WindowBytes(rate, start, log, a, b) <= Bytes(log, i)
    decreases |log|
  {
    if log != [] {
      var n := |log| - 1;
      WindowWithinSuffix(rate, start, log[..n], a, b, if i <= n then i else n);
    }
  }

  /** The first request of a run at or after `a`, given that the last one is. */
  lemma FirstInWindow(log: seq<Request>, a: real) returns (i: nat)
    requires log != [] && log[|log| - 1].now >= a
    ensures i < |log| && log[i].now >= a
    ensures forall j :: 0 <= j < i ==> log[j].now < a
  {
    i := 0;
    while log[i].now < a
      decreases |log| - i
      invariant i < |log|
      invariant forall j :: 0 <= j < i ==> log[j].now < a
    {
      i := i + 1;
    }
  }

  /** The last request of a window bounds the time all its bytes take. */
  lemma {:induction false} WindowClosing(rate: real, start: real, log: seq<Request>, a: real, b: real)
    requires rate > 0.0 && OneWay(Readings(log)) && log != []
    requires a <= log[|log| - 1].now && Release(rate, start, log) <= b
    ensures WindowBytes(rate, start, log, a, b) as real / rate <= b - a - IDLE_CREDIT
  {
    var i := FirstInWindow(log, a);
    WindowWithinSuffix(rate, start, log, a, b, i);
    ClosedForm(rate, start, log);
    ElapsedIsReal(start, log, i);
    assert Backlog(rate, start, log, i) <= Stored(rate, start, log) - IDLE_CREDIT;
    DivideMonotone(WindowBytes(rate, start, log, a, b) as real, Bytes(log, i) as real, rate);
  }

  lemma DivideMonotone(x: real, y: real, rate: real)
    requires rate > 0.0 && x <= y
    ensures x / rate <= y / rate
  {
  }

  lemma {:induction false} WindowTime(rate: real, start: real, log: seq<Request>, a: real, b: real)
    requires rate > 0.0 && OneWay(Readings(log)) && a <= b
    ensures WindowBytes(rate, start, log, a, b) as real / rate <= b - a - IDLE_CREDIT
    decreases |log|
  {
    if log != [] {
      if a <= log[|log| - 1].now && Release(rate, start, log) <= b {
        WindowClosing(rate, start, log, a, b);
      } else {
        OneWayPrefix(log, |log| - 1);
        WindowTime(rate, start, log[..|log| - 1], a, b);
      }
    }
  }

  lemma ScaleUp(x: real, rate: real, t: real)
    requires rate > 0.0 && x / rate <= t
    ensures x <= rate * t
  {
    assert x == rate * (x / rate);
    assert rate * (x / rate) <= rate * t;
  }

  /**
   Bytes that both arrive and are cleared within a window never exceed the rate
   times its length plus the idle credit, for every run whose clock does not change
   direction.
   */
  lemma {:induction false} Throughput(rate: real, start: real, log: seq<Request>, a: real, b: real)
    requires rate > 0.0 && OneWay(Readings(log)) && a <= b
    ensures WindowBytes(rate, start, log, a, b) as real <= rate * (b - a + 0.2)
  {
    hide WindowBytes;
    WindowTime(rate, start, log, a, b);
    ScaleUp(WindowBytes(rate, start, log, a, b) as real, rate, b - a - IDLE_CREDIT);
  }

  /**
   The bound is attained in windows of every length: by any requests that arrive at
   once and together are worth the length and the idle credit.
   */
  lemma {:induction false} ThroughputTight(rate: real, start: real, log: seq<Request>, a: real, length: real)
    requires rate > 0.0 && length >= 0.0
    requires forall i :: 0 <= i < |log| ==> log[i].now == a
    requires Bytes(log, 0) as real == rate * (length + 0.2)
    ensures WindowBytes(rate, start, log, a, a + length) as real == rate * (length + 0.2)
  {
    hide WindowBytes;
    QuotientIs(Bytes(log, 0) as real, rate, length + 0.2);
    BurstPasses(rate, start, log, a, a + length);
  }

  lemma QuotientIs(x: real, rate: real, t: real)
    requires rate > 0.0 && x == rate * t
    ensures x / rate == t
  {
  }

  lemma {:induction false} BurstPasses(rate: real, start: real, log: seq<Request>, a: real, b: real)
    requires rate > 0.0 && a <= b
    requires forall i :: 0 <= i < |log| ==> log[i].now == a
    requires IDLE_CREDIT + Bytes(log, 0) as real / rate <= b - a
    ensures Stored(rate, start, log) == IDLE_CREDIT + Bytes(log, 0) as real / rate
    ensures WindowBytes(rate, start, log, a, b) == Bytes(log, 0)
    decreases |log|
  {
    if log != [] {
      var n := |log| - 1;
      var before, last := Bytes(log[..n], 0), log[n].size;
      assert (before + last) as real / rate == before as real / rate + last as real / rate;
      DivideMonotone(before as real, (before + last) as real, rate);
      BurstPasses(rate, start, log[..n], a, b);
    }
  }

  // ----- Clocks for which the bound fails

  function Requests(nows: seq<real>, sizes: seq<nat>): (log: seq<Request>)
    requires |nows| == |sizes|
    ensures |log| == |nows| && forall i :: 0 <= i < |log| ==> log[i] == Request(sizes[i], nows[i])
  {
    seq(|nows|, i requires 0 <= i < |nows| => Request(sizes[i], nows[i]))
  }

  /** The bound, for all rates, sizes and windows, when the clock reads `nows`. */
  ghost predicate AlwaysBounded(nows: seq<real>) {
    forall rate, start, sizes: seq<nat>, a, b :: rate > 0.0 && |sizes| == |nows| && a <= b ==>
      WindowBytes(rate, start, Requests(nows, sizes), a, b) as real <= rate * (b - a + 0.2)
  }

  /** No bytes but in requests `p` and `r`. */
  ghost predicate TwoBursts(log: seq<Request>, p: nat, r: nat) {
    forall i :: 0 <= i < |log| && i != p && i != r ==> log[i].size == 0
  }

  lemma {:induction false} ElapsedGrows(start: real, log: seq<Request>, i: nat, n: nat)
    requires i < n <= |log|
    ensures Elapsed(start, log[..n], i) <= Elapsed(start, log, i)
    decreases |log|
  {
    if n < |log| {
      ElapsedGrows(start, log[..|log| - 1], i, n);
      assert log[..|log| - 1][..n] == log[..n];
    } else {
      assert log[..n] == log;
    }
  }

  /** Up to the second burst, the stored time is the credit and what is left of the first. */
  lemma {:induction false} FirstBurst(rate: real, start: real, log: seq<Request>, p: nat)
    requires rate > 0.0 && TwoBursts(log, p, p)
    requires p < |log| ==> Elapsed(start, log, p) <= log[p].size as real / rate
    ensures Stored(rate, start, log) ==
            IDLE_CREDIT + if p < |log| then log[p].size as real / rate - Elapsed(start, log, p) else 0.0
    decreases |log|
  {
    if log != [] {
      var n := |log| - 1;
      if p < n {
        ElapsedGrows(start, log, p, n);
      }
      FirstBurst(rate, start, log[..n], p);
      assert 0 as real / rate == 0.0;
    }
  }

  /** Empty requests add nothing to a window. */
  lemma {:induction false} WindowUpTo(rate: real, start: real, log: seq<Request>, a: real, b: real, n: nat)
    requires rate > 0.0 && n <= |log| && forall i :: n <= i < |log| ==> log[i].size == 0
    ensures WindowBytes(rate, start, log, a, b) == WindowBytes(rate, start, log[..n], a, b)
    decreases |log|
  {
    if n < |log| {
      WindowUpTo(rate, start, log[..|log| - 1], a, b, n);
      assert log[..|log| - 1][..n] == log[..n];
    } else {
      assert log[..n] == log;
    }
  }

  /** The window from the first of two bursts at `tp` and `tr` until both are cleared. */
  function From(tp: real, tr: real): real {
    if tp <= tr then tp else tr
  }

  function Until(tp: real, tr: real, e: real, y: real): real {
    Max(tp + Max(0.0, e + IDLE_CREDIT), tr + y + IDLE_CREDIT)
  }

  /** With more time elapsed than lies between the readings, it is too short for both bursts. */
  lemma TooShort(tp: real, tr: real, e: real, y: real)
    requires e > Max(0.0, tr - tp) && y > Max(0.0, tp - tr) - IDLE_CREDIT
    ensures From(tp, tr) <= Until(tp, tr, e, y) && e + y > Until(tp, tr, e, y) - From(tp, tr) - IDLE_CREDIT
  {
  }

  /**
   If more time counts as elapsed between two requests than lies between their
   readings, the first burst is forgotten too early and both fit into one window.
   */
  lemma {:induction false} Overrun(rate: real, start: real, log: seq<Request>, p: nat, r: nat, e: real, y: real)
    requires rate > 0.0 && p < r < |log| && TwoBursts(log, p, r)
    requires e == Elapsed(start, log[..r + 1], p) && e > Max(0.0, log[r].now - log[p].now)
    requires log[p].size as real / rate == e && log[r].size as real / rate == y
    requires y > Max(0.0, log[p].now - log[r].now) - IDLE_CREDIT
    ensures var a, b := From(log[p].now, log[r].now), Until(log[p].now, log[r].now, e, y);
            a <= b && WindowBytes(rate, start, log, a, b) as real > rate * (b - a - IDLE_CREDIT)
  {
    hide WindowBytes, TwoBursts, Elapsed;
    var a, b := From(log[p].now, log[r].now), Until(log[p].now, log[r].now, e, y);
    TooShort(log[p].now, log[r].now, e, y);
    BothCleared(rate, start, log, p, r, a, b);
    var total := WindowBytes(rate, start, log, a, b);
    hide *;
    DivideSum(log[p].size, log[r].size, rate);
    DivideMonotone((log[p].size + log[r].size) as real, total as real, rate);
    ScaleAbove(total as real, rate, b - a - IDLE_CREDIT);
  }

  lemma DivideSum(x: nat, y: nat, rate: real)
    requires rate > 0.0
    ensures (x + y) as real / rate == x as real / rate + y as real / rate
  {
  }

  lemma ScaleAbove(x: real, rate: real, t: real)
    requires rate > 0.0 && x / rate > t
    ensures x > rate * t
  {
    assert x == rate * (x / rate);
    assert rate * (x / rate) > rate * t;
  }

  lemma {:induction false} BothCleared(rate: real, start: real, log: seq<Request>, p: nat, r: nat, a: real, b: real)
    requires rate > 0.0 && p < r < |log| && TwoBursts(log, p, r)
    requires var e := Elapsed(start, log[..r + 1], p);
             && log[p].size as real / rate == e && log[r].size as real / rate >= -IDLE_CREDIT
             && a <= log[p].now && a <= log[r].now
             && b >= log[p].now + Max(0.0, e + IDLE_CREDIT) && b >= log[r].now + log[r].size as real / rate + IDLE_CREDIT
    ensures WindowBytes(rate, start, log, a, b) >= log[p].size + log[r].size
  {
    hide WindowBytes, Elapsed, Max;
    WindowUpTo(rate, start, log, a, b, r + 1);
    var first, upto := log[..p + 1], log[..r + 1];
    FirstCleared(rate, start, first, a, b);
    SecondCleared(rate, start, upto, p, a, b);
    assert upto[..p + 1] == first;
  }

  lemma {:induction false} FirstCleared(rate: real, start: real, log: seq<Request>, a: real, b: real)
    requires rate > 0.0 && log != [] && TwoBursts(log, |log| - 1, |log| - 1)
    requires var last := log[|log| - 1]; a <= last.now && b >= last.now + Max(0.0, last.size as real / rate + IDLE_CREDIT)
    ensures WindowBytes(rate, start, log, a, b) >= log[|log| - 1].size
  {
    FirstBurst(rate, start, log, |log| - 1);
  }

  lemma {:induction false} SecondCleared(rate: real, start: real, log: seq<Request>, p: nat, a: real, b: real)
    requires rate > 0.0 && p < |log| - 1 && TwoBursts(log, p, |log| - 1)
    requires var last := log[|log| - 1];
             && log[p].size as real / rate == Elapsed(start, log, p) && last.size as real / rate >= -IDLE_CREDIT
             && a <= last.now && b >= last.now + last.size as real / rate + IDLE_CREDIT
    ensures WindowBytes(rate, start, log, a, b) == WindowBytes(rate, start, log[..p + 1], a, b) + log[|log| - 1].size
  {
    var r := |log| - 1;
    var before := log[..r];
    ElapsedGrows(start, log, p, r);
    FirstBurst(rate, start, before, p);
    SecondBurst(rate, start, log, p);
    WindowUpTo(rate, start, before, a, b, p + 1);
    assert before[..p + 1] == log[..p + 1];
    hide Stored, Elapsed, TwoBursts;
    LastCounts(rate, start, log, a, b);
  }

  /** By the time of the second burst the first is forgotten. */
  lemma SecondBurst(rate: real, start: real, log: seq<Request>, p: nat)
    requires rate > 0.0 && p < |log| - 1 && TwoBursts(log[..|log| - 1], p, p)
    requires Elapsed(start, log, p) == log[p].size as real / rate
    requires Stored(rate, start, log[..|log| - 1]) == IDLE_CREDIT + log[p].size as real / rate - Elapsed(start, log[..|log| - 1], p)
    ensures Stored(rate, start, log) == IDLE_CREDIT + log[|log| - 1].size as real / rate
  {
  }

  lemma LastCounts(rate: real, start: real, log: seq<Request>, a: real, b: real)
    requires rate > 0.0 && log != [] && a <= log[|log| - 1].now && Release(rate, start, log) <= b
    ensures WindowBytes(rate, start, log, a, b) == WindowBytes(rate, start, log[..|log| - 1], a, b) + log[|log| - 1].size
  {
  }

  /** A step up or down that is later undone, at least in part, leaves such a pair of requests. */
  lemma {:induction false} TurnsBack(start: real, log: seq<Request>) returns (p: nat, r: nat)
    requires !OneWay(Readings(log))
    ensures p < r < |log|
    ensures Elapsed(start, log[..r + 1], p) > Max(0.0, log[r].now - log[p].now)
    decreases |log|
  {
    hide OneWay, Elapsed, Max;
    EmptyOneWay();
    assert log == [] ==> Readings(log) == [];
    var n := |log| - 1;
    var prefix := log[..n];
    if !OneWay(Readings(prefix)) {
      p, r := TurnsBack(start, prefix);
      assert prefix[..r + 1] == log[..r + 1];
    } else {
      LastTurn(start, log);
      p, r := 0, n;
      assert log[..n + 1] == log;
    }
  }

  lemma EmptyOneWay()
    ensures OneWay([])
  {
  }

  /** The turn happens at the last request. */
  lemma {:induction false} LastTurn(start: real, log: seq<Request>)
    requires log != [] && !OneWay(Readings(log)) && OneWay(Readings(log[..|log| - 1]))
    ensures |log| > 1 && Elapsed(start, log, 0) > Max(0.0, log[|log| - 1].now - log[0].now)
  {
    var n, nows := |log| - 1, Readings(log);
    var before := Readings(log[..n]);
    assert nows == before + [log[n].now];
    assert n == 0 ==> NonDecreasing(nows);
    if n > 0 {
      ElapsedIsReal(start, log[..n], 0);
      assert before[0] == log[0].now && before[n - 1] == log[n - 1].now;
      if NonDecreasing(before) {
        Extends(before, log[n].now);
      }
      if NonIncreasing(before) {
        Extends(before, log[n].now);
      }
    }
  }

  lemma Extends(nows: seq<real>, now: real)
    requires nows != []
    ensures NonDecreasing(nows) && nows[|nows| - 1] <= now ==> NonDecreasing(nows + [now])
    ensures NonIncreasing(nows) && nows[|nows| - 1] >= now ==> NonIncreasing(nows + [now])
    ensures NonDecreasing(nows) && nows[0] == nows[|nows| - 1] ==> NonIncreasing(nows)
    ensures NonIncreasing(nows) && nows[0] == nows[|nows| - 1] ==> NonDecreasing(nows)
  {
  }

  /** A number of bytes that takes longer than `t`. */
  lemma EnoughBytes(unit: real, t: real) returns (y: nat)
    requires unit > 0.0
    ensures y as real * unit > t
  {
    var q := Max(0.0, t / unit);
    y := q.Floor + 1;
    assert y as real > q >= t / unit;
    assert y as real * unit > t / unit * unit;
  }

  lemma NotBounded(rate: real, start: real, nows: seq<real>, sizes: seq<nat>, a: real, b: real)
    requires rate > 0.0 && |sizes| == |nows| && a <= b
    requires WindowBytes(rate, start, Requests(nows, sizes), a, b) as real > rate * (b - a + 0.2)
    ensures !AlwaysBounded(nows)
  {
    hide WindowBytes;
  }

  /** A rate at which one byte takes time `e`, and a number of bytes that takes more than `least`. */
  lemma BurstSizes(e: real, least: real) returns (rate: real, y: nat, t: real)
    requires e > 0.0
    ensures rate > 0.0 && 1 as real / rate == e && y as real / rate == t && t > least
  {
    y := EnoughBytes(e, least);
    rate := RateOf(e, y);
    t := y as real * e;
  }

  /** One byte at `p` and enough bytes at `r` overrun some window. */
  lemma {:induction false} TwoBurstsOverrun(nows: seq<real>, blank: seq<Request>, p: nat, r: nat)
    requires Readings(blank) == nows && p < r < |nows|
    requires Elapsed(0.0, blank[..r + 1], p) > Max(0.0, nows[r] - nows[p])
    ensures !AlwaysBounded(nows)
  {
    hide WindowBytes, Elapsed, AlwaysBounded;
    var e := Elapsed(0.0, blank[..r + 1], p);
    var rate, y, t := BurstSizes(e, Max(0.0, nows[p] - nows[r]) - IDLE_CREDIT);
    var sizes: seq<nat> := seq(|nows|, i => if i == p then 1 else if i == r then y else 0);
    var log := Requests(nows, sizes);
    SameReadings(blank, log, r + 1);
    ElapsedByReadings(0.0, blank[..r + 1], log[..r + 1], p);
    hide Max;
    Overrun(rate, 0.0, log, p, r, e, t);
    NotBounded(rate, 0.0, nows, sizes, From(nows[p], nows[r]), Until(nows[p], nows[r], e, t));
  }

  lemma SameReadings(a: seq<Request>, b: seq<Request>, n: nat)
    requires Readings(a) == Readings(b) && n <= |a|
    ensures |a| == |b| && forall k :: 0 <= k < n ==> a[..n][k].now == b[..n][k].now
  {
    assert forall k :: 0 <= k < n ==> Readings(a)[k] == Readings(b)[k];
  }

  lemma SomeRun(nows: seq<real>) returns (log: seq<Request>)
    ensures Readings(log) == nows
  {
    log := Requests(nows, seq(|nows|, _ => 0));
  }

  lemma {:induction false} TurningClockOverruns(nows: seq<real>)
    requires !OneWay(nows)
    ensures !AlwaysBounded(nows)
  {
    hide Elapsed, OneWay, AlwaysBounded, Max;
    var blank := SomeRun(nows);
    var p, r := TurnsBack(0.0, blank);
    assert blank[p].now == nows[p] && blank[r].now == nows[r];
    TwoBurstsOverrun(nows, blank, p, r);
  }

  /** The rate at which one byte takes time `e`. */
  lemma RateOf(e: real, y: nat) returns (rate: real)
    requires e > 0.0
    ensures rate > 0.0 && 1 as real / rate == e && y as real / rate == y as real * e
  {
    rate := 1.0 / e;
  }

  /** Sizes have no influence on the time elapsed. */
  lemma {:induction false} ElapsedByReadings(start: real, log: seq<Request>, log': seq<Request>, i: nat)
    requires i < |log| == |log'| && forall k :: 0 <= k < |log| ==> log[k].now == log'[k].now
    ensures Elapsed(start, log, i) == Elapsed(start, log', i)
    decreases |log|
  {
    if i < |log| - 1 {
      ElapsedByReadings(start, log[..|log| - 1], log'[..|log| - 1], i);
    }
  }

  /**
   Which clocks keep the throughput bounded: for all rates, sizes and windows
   exactly those that never change direction.
   */
  lemma {:induction false} ThroughputIff(nows: seq<real>)
    ensures AlwaysBounded(nows) <==> OneWay(nows)
  {
    if OneWay(nows) {
      forall rate, start, sizes: seq<nat>, a, b | rate > 0.0 && |sizes| == |nows| && a <= b
        ensures WindowBytes(rate, start, Requests(nows, sizes), a, b) as real <= rate * (b - a + 0.2)
      {
        assert Readings(Requests(nows, sizes)) == nows;
        Throughput(rate, start, Requests(nows, sizes), a, b);
      }
    } else {
      TurningClockOverruns(nows);
    }
  }

  /** For instance: up by ten and back, with ten bytes at either end and one byte a second. */
  lemma BackwardsClockOverruns()
    ensures var log := [Request(10, 0.0), Request(0, 10.0), Request(10, 0.0)];
            WindowBytes(1.0, 0.0, log, 0.0, 10.0) as real > 1.0 * (10.0 - 0.0 + 0.2)
  {
    var log := [Request(10, 0.0), Request(0, 10.0), Request(10, 0.0)];
    assert log[..2] == [Request(10, 0.0), Request(0, 10.0)];
    assert log[..2][..1] == [Request(10, 0.0)];
    assert log[..2][..1][..0] == [];
    assert Stored(1.0, 0.0, log[..2][..1]) == 9.8;
    assert Stored(1.0, 0.0, log[..2]) == -0.2;
    assert Stored(1.0, 0.0, log) == 9.8;
  }

  // ----- Turning the stored time into a nanosleep

  /** C conversion of a real to an integer: truncation towards zero. */
  function Truncate(x: real): int {
    if x >= 0.0 then x.Floor else -((-x).Floor)
  }

  /**
   The seconds and nanoseconds handed to nanosleep: no sleep for a credit, and
   otherwise the stored time rounded down by less than a nanosecond.
   */
  method SleepSeconds(s: real) returns (sec: int, nsec: int)
    requires s >= -0.2
    ensures sec >= 0 && 0 <= nsec <= 999999999
    ensures var slept := sec as real + nsec as real / 1000000000.0;
            if s <= 0.0 then slept == 0.0 else s - 0.000000001 < slept <= s
  {
    sec := Truncate(s);
    nsec := Truncate((s - sec as real) * 1000000000.0);
    if nsec > 999999999 {
      nsec := 999999999;
    } else if nsec < 0 {
      nsec := 0;
    }
  }
}
