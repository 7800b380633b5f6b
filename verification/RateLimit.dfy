/** The fixed-window rate limiter of incoming messages. */
module RateLimit {
  import opened Seqs

  const MAX_PER_MINUTE := 30
  const WINDOW_MS := 60_000

  datatype Window = Window(count: nat, windowStart: int)

  type Limits = map<string, Window>

  datatype Attempt = Attempt(did: string, now: int)

  /** The limiter's answer, and the sender's window afterwards. */
  function CheckWindow(entry: Option<Window>, now: int): (Window, bool) {
    if entry.None? || now - entry.value.windowStart > WINDOW_MS then (Window(1, now), true)
    else if entry.value.count >= MAX_PER_MINUTE then (entry.value, false)
    else (entry.value.(count := entry.value.count + 1), true)
  }

  function EntryOf(limits: Limits, did: string): Option<Window> {
    if did in limits then Some(limits[did]) else None
  }

  function Check(limits: Limits, did: string, now: int): (Limits, bool) {
    var (w, ok) := CheckWindow(EntryOf(limits, did), now);
    (limits[did := w], ok)
  }

  // ---- whole traces ---------------------------------------------------------------------------------

  function Run(trace: seq<Attempt>): Limits {
    if trace == [] then map[]
    else Check(Run(trace[..|trace| - 1]), trace[|trace| - 1].did, trace[|trace| - 1].now).0
  }

  /** Whether attempt `i` of the trace is let through. */
  function Admitted(trace: seq<Attempt>, i: nat): bool
    requires i < |trace|
  {
    Check(Run(trace[..i]), trace[i].did, trace[i].now).1
  }

  ghost predicate ClockRuns(trace: seq<Attempt>) {
    forall i, j :: 0 <= i < j < |trace| ==> trace[i].now <= trace[j].now
  }

  /** Messages of `did` admitted at `from` or later. */
  function Since(trace: seq<Attempt>, did: string, from: int): nat
    decreases |trace|
  {
    if trace == [] then 0
    else
      var n := |trace| - 1;
      Since(trace[..n], did, from) + if trace[n].did == did && from <= trace[n].now && Admitted(trace, n) then 1 else 0
  }

  /** Messages of `did` admitted from `from` to 60 seconds after, both included. */
  function InMinute(trace: seq<Attempt>, did: string, from: int): nat
    decreases |trace|
  {
    if trace == [] then 0
    else
      var n := |trace| - 1;
      InMinute(trace[..n], did, from)
      + if trace[n].did == did && from <= trace[n].now <= from + 60_000 && Admitted(trace, n) then 1 else 0
  }

  /**
   * What a sender's window `w` says of its admissions: those since the window began are
   * counted in it, one of them at its very start; the minute before added at most 29; and
   * minutes that ended before it admitted at most 59.
   */
  ghost predicate Tracks(trace: seq<Attempt>, did: string, w: Window) {
    && 1 <= w.count <= MAX_PER_MINUTE
    && Since(trace, did, w.windowStart) == w.count
    && Since(trace, did, w.windowStart + 1) <= w.count - 1
    && Since(trace, did, w.windowStart - WINDOW_MS) <= MAX_PER_MINUTE - 1 + w.count
    && (forall a {:trigger InMinute(trace, did, a)} :: a + WINDOW_MS < w.windowStart ==>
          InMinute(trace, did, a) <= 2 * MAX_PER_MINUTE - 1)
    && (forall a {:trigger Since(trace, did, a)} :: a > w.windowStart + WINDOW_MS ==> Since(trace, did, a) == 0)
  }

  ghost predicate Bounded(trace: seq<Attempt>, did: string) {
    match EntryOf(Run(trace), did)
    case None => forall a :: Since(trace, did, a) == 0
    case Some(w) => Tracks(trace, did, w) && (trace != [] ==> w.windowStart <= trace[|trace| - 1].now)
  }

  lemma {:induction false} SinceFalls(trace: seq<Attempt>, did: string, a: int, b: int)
    requires a <= b
    ensures Since(trace, did, b) <= Since(trace, did, a)
    decreases |trace|
  {
    if trace != [] {
      SinceFalls(trace[..|trace| - 1], did, a, b);
    }
  }

  lemma {:induction false} MinuteIsPart(trace: seq<Attempt>, did: string, a: int)
    ensures InMinute(trace, did, a) <= Since(trace, did, a)
    decreases |trace|
  {
    if trace != [] {
      MinuteIsPart(trace[..|trace| - 1], did, a);
    }
  }

  /** Any minute, in a state that tracks the admissions. */
  lemma MinuteBound(trace: seq<Attempt>, did: string, a: int)
    requires Bounded(trace, did)
    ensures InMinute(trace, did, a) <= 2 * MAX_PER_MINUTE - 1
  {
    MinuteIsPart(trace, did, a);
    var entry := EntryOf(Run(trace), did);
    if entry.Some? && a + WINDOW_MS >= entry.value.windowStart {
      SinceFalls(trace, did, entry.value.windowStart - WINDOW_MS, a);
    }
  }

  /** How one more attempt enters the counts. */
  lemma CountsNext(front: seq<Attempt>, x: Attempt, did: string, a: int)
    ensures var trace := front + [x];
            var ok := x.did == did && Check(Run(front), x.did, x.now).1;
            && Since(trace, did, a) == Since(front, did, a) + (if ok && a <= x.now then 1 else 0)
            && InMinute(trace, did, a) == InMinute(front, did, a) + (if ok && a <= x.now <= a + WINDOW_MS then 1 else 0)
            && Run(trace) == Check(Run(front), x.did, x.now).0
  {
    var trace := front + [x];
    assert trace[..|front|] == front;
  }

  lemma OtherSender(front: seq<Attempt>, x: Attempt, did: string)
    requires Bounded(front, did) && x.did != did && (front != [] ==> front[|front| - 1].now <= x.now)
    ensures Bounded(front + [x], did)
  {
    hide Run, Since, InMinute;
    var trace := front + [x];
    forall a
      ensures Since(trace, did, a) == Since(front, did, a) && InMinute(trace, did, a) == InMinute(front, did, a)
    {
      CountsNext(front, x, did, a);
    }
    CountsNext(front, x, did, 0);
    assert EntryOf(Run(trace), did) == EntryOf(Run(front), did);
    NoEntryAtFirst(front, did);
  }

  lemma NoEntryAtFirst(front: seq<Attempt>, did: string)
    ensures front == [] ==> EntryOf(Run(front), did) == None
  {
  }

  /** The attempt begins a window. */
  lemma NewWindow(front: seq<Attempt>, x: Attempt, did: string)
    requires Bounded(front, did) && x.did == did
    requires CheckWindow(EntryOf(Run(front), did), x.now) == (Window(1, x.now), true)
    requires var e := EntryOf(Run(front), did); e.None? || x.now - e.value.windowStart > WINDOW_MS
    ensures Tracks(front + [x], did, Window(1, x.now))
  {
    hide Run, Since, InMinute;
    var trace, w := front + [x], Window(1, x.now);
    var e := EntryOf(Run(front), did);
    forall a
      ensures Since(trace, did, a) == Since(front, did, a) + (if a <= x.now then 1 else 0)
      ensures InMinute(trace, did, a) == InMinute(front, did, a) + (if a <= x.now <= a + WINDOW_MS then 1 else 0)
    {
      CountsNext(front, x, did, a);
    }
    if e.Some? {
      SinceFalls(front, did, e.value.windowStart + 1, x.now - WINDOW_MS);
    }
    forall a {:trigger InMinute(trace, did, a)} | a + WINDOW_MS < x.now
      ensures InMinute(trace, did, a) <= 2 * MAX_PER_MINUTE - 1
    {
      MinuteBound(front, did, a);
    }
  }

  /** The attempt is counted in the current window. */
  lemma SameWindow(front: seq<Attempt>, x: Attempt, did: string, w: Window)
    requires Tracks(front, did, w) && x.did == did && EntryOf(Run(front), did) == Some(w)
    requires w.windowStart <= x.now <= w.windowStart + WINDOW_MS && w.count < MAX_PER_MINUTE
    ensures Tracks(front + [x], did, w.(count := w.count + 1))
  {
    hide Run, Since, InMinute;
    var trace := front + [x];
    forall a
      ensures Since(trace, did, a) == Since(front, did, a) + (if a <= x.now then 1 else 0)
      ensures InMinute(trace, did, a) == InMinute(front, did, a) + (if a <= x.now <= a + WINDOW_MS then 1 else 0)
    {
      CountsNext(front, x, did, a);
    }
  }

  /** The attempt is turned away. */
  lemma Refused(front: seq<Attempt>, x: Attempt, did: string, w: Window)
    requires Tracks(front, did, w) && x.did == did && EntryOf(Run(front), did) == Some(w)
    requires x.now - w.windowStart <= WINDOW_MS && w.count >= MAX_PER_MINUTE
    ensures Tracks(front + [x], did, w)
  {
    hide Run, Since, InMinute;
    var trace := front + [x];
    forall a
      ensures Since(trace, did, a) == Since(front, did, a) && InMinute(trace, did, a) == InMinute(front, did, a)
    {
      CountsNext(front, x, did, a);
    }
  }

  lemma OwnAttempt(front: seq<Attempt>, x: Attempt, did: string)
    requires Bounded(front, did) && x.did == did && (front != [] ==> front[|front| - 1].now <= x.now)
    ensures Bounded(front + [x], did)
  {
    CountsNext(front, x, did, 0);
    NoEntryAtFirst(front, did);
    hide Tracks, Since, InMinute, Run;
    var e := EntryOf(Run(front), did);
    if e.None? || x.now - e.value.windowStart > WINDOW_MS {
      NewWindow(front, x, did);
    } else if e.value.count >= MAX_PER_MINUTE {
      Refused(front, x, did, e.value);
    } else {
      SameWindow(front, x, did, e.value);
    }
  }

  lemma ClockSplits(front: seq<Attempt>, x: Attempt)
    requires ClockRuns(front + [x])
    ensures ClockRuns(front) && (front != [] ==> front[|front| - 1].now <= x.now)
  {
    var trace := front + [x];
    assert forall i :: 0 <= i < |front| ==> front[i] == trace[i];
    assert trace[|front|] == x;
  }

  lemma {:induction false} RunIsBounded(trace: seq<Attempt>, did: string)
    requires ClockRuns(trace)
    ensures Bounded(trace, did)
    decreases |trace|
  {
    if trace != [] {
      hide Bounded, ClockRuns;
      var front, x := trace[..|trace| - 1], trace[|trace| - 1];
      assert trace == front + [x];
      ClockSplits(front, x);
      RunIsBounded(front, did);
      if x.did != did {
        OtherSender(front, x, did);
      } else {
        OwnAttempt(front, x, did);
      }
    }
  }

  // ---- the promises ------------------------------------------------------------------------------------

  /** In any 60 seconds, both ends included, at most 59 messages of one sender get through. */
  lemma AtMost59PerMinute(trace: seq<Attempt>, did: string, from: int)
    requires ClockRuns(trace)
    ensures InMinute(trace, did, from) <= 59
  {
    RunIsBounded(trace, did);
    MinuteBound(trace, did, from);
  }

  /** A sender's current window admitted what it counts, which is at most 30. */
  lemma AtMost30PerWindow(trace: seq<Attempt>, did: string)
    requires ClockRuns(trace) && did in Run(trace)
    ensures Since(trace, did, Run(trace)[did].windowStart) == Run(trace)[did].count <= 30
  {
    RunIsBounded(trace, did);
  }

  /**
   * A message is turned away exactly when 30 of its sender got through since the sender's window
   * began, a minute ago at most.
   */
  lemma RefusedIff(trace: seq<Attempt>, did: string, now: int)
    requires ClockRuns(trace)
    ensures !Check(Run(trace), did, now).1
            <==> did in Run(trace) && now - Run(trace)[did].windowStart <= 60_000
                 && Since(trace, did, Run(trace)[did].windowStart) == 30
  {
    hide Run, Since;
    if did in Run(trace) {
      AtMost30PerWindow(trace, did);
    }
  }

  /** A window begins with a message that gets through, more than a minute after the one before began. */
  lemma WindowBegins(trace: seq<Attempt>, did: string, now: int)
    ensures var before, after := EntryOf(Run(trace), did), EntryOf(Check(Run(trace), did, now).0, did);
            && after.Some?
            && if before.None? || now - before.value.windowStart > 60_000
               then after.value.windowStart == now && Check(Run(trace), did, now).1
               else after.value.windowStart == before.value.windowStart
  {
  }

  function By(did: string): Attempt -> bool { (a: Attempt) => a.did == did }

  /** One sender's attempts only. */
  function Only(trace: seq<Attempt>, did: string): seq<Attempt> {
    Filter(trace, By(did))
  }

  /** What becomes of a sender does not depend on the others. */
  lemma {:induction false} SendersAreIndependent(trace: seq<Attempt>, did: string)
    ensures EntryOf(Run(trace), did) == EntryOf(Run(Only(trace, did)), did)
    ensures forall a :: Since(trace, did, a) == Since(Only(trace, did), did, a)
    ensures forall a :: InMinute(trace, did, a) == InMinute(Only(trace, did), did, a)
    decreases |trace|
  {
    if trace != [] {
      var front, x := trace[..|trace| - 1], trace[|trace| - 1];
      SendersAreIndependent(front, did);
      assert trace == front + [x];
      FilterConcat(front, [x], By(did));
      var own := Only(front, did);
      assert Only(trace, did) == if x.did == did then own + [x] else own;
      hide Run, Since, InMinute, Filter, Only;
      forall a
        ensures Since(trace, did, a) == Since(Only(trace, did), did, a)
        ensures InMinute(trace, did, a) == InMinute(Only(trace, did), did, a)
      {
        OneMoreAttempt(front, own, x, did, a);
      }
      OneMoreAttempt(front, own, x, did, 0);
    }
  }

  /** Two traces that look the same to `did` still do after one more attempt, if it is by `did` itself in both. */
  lemma OneMoreAttempt(front: seq<Attempt>, own: seq<Attempt>, x: Attempt, did: string, a: int)
    requires EntryOf(Run(front), did) == EntryOf(Run(own), did)
    requires Since(front, did, a) == Since(own, did, a) && InMinute(front, did, a) == InMinute(own, did, a)
    ensures var trace, trace' := front + [x], if x.did == did then own + [x] else own;
            && EntryOf(Run(trace), did) == EntryOf(Run(trace'), did)
            && Since(trace, did, a) == Since(trace', did, a) && InMinute(trace, did, a) == InMinute(trace', did, a)
  {
    hide Run, Since, InMinute;
    CountsNext(front, x, did, a);
    if x.did == did {
      CountsNext(own, x, did, a);
    }
  }

  // ---- the bound is reached ------------------------------------------------------------------------------

  /** The same attempt `n` times. */
  function Burst(did: string, now: int, n: nat): (b: seq<Attempt>)
    ensures |b| == n
  {
    if n == 0 then [] else Burst(did, now, n - 1) + [Attempt(did, now)]
  }

  lemma BurstNext(trace: seq<Attempt>, did: string, now: int, n: nat)
    ensures trace + Burst(did, now, n)
            == if n == 0 then trace else trace + Burst(did, now, n - 1) + [Attempt(did, now)]
  {
  }

  /** A burst within a window that has room is let through whole. */
  lemma {:induction false} BurstPasses(trace: seq<Attempt>, did: string, now: int, n: nat, w: Window, a: int)
    requires EntryOf(Run(trace), did) == Some(w)
    requires now <= w.windowStart + WINDOW_MS && w.count + n <= MAX_PER_MINUTE
    requires a <= now <= a + WINDOW_MS
    ensures EntryOf(Run(trace + Burst(did, now, n)), did) == Some(w.(count := w.count + n))
    ensures InMinute(trace + Burst(did, now, n), did, a) == InMinute(trace, did, a) + n
  {
    hide Run, Since, InMinute, Burst;
    BurstNext(trace, did, now, n);
    if n > 0 {
      var shorter := trace + Burst(did, now, n - 1);
      BurstPasses(trace, did, now, n - 1, w, a);
      CountsNext(shorter, Attempt(did, now), did, a);
    }
  }

  /** One message, 29 more at the end of its window, 30 in the next millisecond: 59 in 2 ms. */
  lemma The59AreReached(did: string)
    ensures var trace := [Attempt(did, 0)] + Burst(did, WINDOW_MS, 29)
                         + [Attempt(did, WINDOW_MS + 1)] + Burst(did, WINDOW_MS + 1, 29);
            InMinute(trace, did, WINDOW_MS) == 59
  {
    var first := [Attempt(did, 0)];
    CountsNext([], Attempt(did, 0), did, WINDOW_MS);
    assert [] + first == first;
    BurstPasses(first, did, WINDOW_MS, 29, Window(1, 0), WINDOW_MS);
    var full := first + Burst(did, WINDOW_MS, 29);
    CountsNext(full, Attempt(did, WINDOW_MS + 1), did, WINDOW_MS);
    var next := full + [Attempt(did, WINDOW_MS + 1)];
    BurstPasses(next, did, WINDOW_MS + 1, 29, Window(1, WINDOW_MS + 1), WINDOW_MS);
  }

  // ---- the limiter -----------------------------------------------------------------------------------------

  class Entry {
    var count: nat
    var windowStart: int

    constructor (count: nat, windowStart: int)
      ensures this.count == count && this.windowStart == windowStart
    {
      this.count, this.windowStart := count, windowStart;
    }
  }

  class RateLimiter {
    var rateLimits: map<string, Entry>
    ghost var limits: Limits

    ghost predicate Valid()
      reads this, rateLimits.Values
    {
      && rateLimits.Keys == limits.Keys
      && (forall d :: d in rateLimits ==> limits[d] == Window(rateLimits[d].count, rateLimits[d].windowStart))
      && (forall d, e :: d in rateLimits && e in rateLimits && d != e ==> rateLimits[d] != rateLimits[e])
    }

    constructor ()
      ensures Valid() && limits == map[]
    {
      rateLimits, limits := map[], map[];
    }

    method CheckRateLimit(did: string, now: int) returns (ok: bool)
      requires Valid()
      modifies this, rateLimits.Values
      ensures Valid()
      ensures (limits, ok) == Check(old(limits), did, now)
    {
      if did !in rateLimits || now - rateLimits[did].windowStart > WINDOW_MS {
        var entry := new Entry(1, now);
        rateLimits := rateLimits[did := entry];
        limits := limits[did := Window(1, now)];
        return true;
      }
      var entry := rateLimits[did];
      if entry.count >= MAX_PER_MINUTE {
        assert limits[did := limits[did]] == limits;
        return false;
      }
      entry.count := entry.count + 1;
      limits := limits[did := Window(entry.count, entry.windowStart)];
      ok := true;
    }
  }
}
