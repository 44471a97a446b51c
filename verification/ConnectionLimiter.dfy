// The connection limiter of the connector: how many connections are open, from where, and
// how many were started in the current window.
module ConnectionLimiter {
  import opened Sequences

  type Ip = string

  // A reading of the monotonic clock, in nanoseconds
  type Instant = int

  const MAX_ACTIVE := 128
  const MAX_ACTIVE_PER_IP := 16
  const START_WINDOW := 10_000_000_000
  const MAX_STARTS := 256

  datatype Counts = Counts(total: nat, perIp: map<Ip, nat>, windowStarted: Instant, startsInWindow: nat)

  function SaturatingSub(n: nat, m: nat): nat {
    if n < m then 0 else n - m
  }

  function CountOf(c: Counts, ip: Ip): nat {
    if ip in c.perIp then c.perIp[ip] else 0
  }

  predicate WindowIsOver(c: Counts, now: Instant) {
    now - c.windowStarted >= START_WINDOW
  }

  // The clock is read once to see how old the window is, and again when a new one starts.
  function Rolled(c: Counts, now: Instant, later: Instant): Counts {
    if WindowIsOver(c, now) then c.(windowStarted := later, startsInWindow := 0) else c
  }

  function TryAcquire(c: Counts, ip: Ip, now: Instant, later: Instant): (Counts, bool) {
    var r := Rolled(c, now, later);
    if r.startsInWindow >= MAX_STARTS then (r, false)
    else
      var started := r.(startsInWindow := r.startsInWindow + 1);
      if r.total >= MAX_ACTIVE || CountOf(r, ip) >= MAX_ACTIVE_PER_IP then (started, false)
      else (started.(total := r.total + 1, perIp := r.perIp[ip := CountOf(r, ip) + 1]), true)
  }

  function Release(c: Counts, ip: Ip): Counts {
    var total := SaturatingSub(c.total, 1);
    if ip !in c.perIp then c.(total := total)
    else
      var n := SaturatingSub(c.perIp[ip], 1);
      c.(total := total, perIp := if n == 0 then c.perIp - {ip} else c.perIp[ip := n])
  }

  class Limiter {
    var total: nat
    var perIp: map<Ip, nat>
    var windowStarted: Instant
    var startsInWindow: nat

    function State(): Counts
      reads this
    {
      Counts(total, perIp, windowStarted, startsInWindow)
    }

    constructor (now: Instant)
      ensures State() == Counts(0, map[], now, 0)
    {
      total, perIp, windowStarted, startsInWindow := 0, map[], now, 0;
    }

    method Acquire(ip: Ip, now: Instant, later: Instant) returns (ok: bool)
      modifies this
      ensures (State(), ok) == TryAcquire(old(State()), ip, now, later)
    {
      if now - windowStarted >= START_WINDOW {
        windowStarted := later;
        startsInWindow := 0;
      }
      if startsInWindow >= MAX_STARTS { return false; }
      startsInWindow := startsInWindow + 1;
      var count := if ip in perIp then perIp[ip] else 0;
      if total >= MAX_ACTIVE || count >= MAX_ACTIVE_PER_IP { return false; }
      total := total + 1;
      perIp := perIp[ip := count + 1];
      ok := true;
    }

    method Drop(ip: Ip)
      modifies this
      ensures State() == Release(old(State()), ip)
    {
      total := SaturatingSub(total, 1);
      if ip in perIp {
        perIp := perIp[ip := SaturatingSub(perIp[ip], 1)];
        if perIp[ip] == 0 {
          perIp := perIp - {ip};
          assert perIp == old(perIp) - {ip};
        }
      }
    }
  }

  // ---- Runs ----

  // A connection asks for a permit, or the holder of a permit drops it.
  datatype Event = Ask(ip: Ip, now: Instant, later: Instant) | Finish(ip: Ip)

  // `window` numbers the start windows.
  datatype Admission = Admission(at: Instant, window: nat)

  // The counters, beside the permits really alive, the last clock reading, the start of
  // every window so far, how many connections asked in the last one, whatever the answer, and
  // every admission so far.
  datatype System = System(counts: Counts, live: multiset<Ip>, clock: Instant, windows: seq<Instant>,
    asked: nat, log: seq<Admission>)

  function Start(now: Instant): System {
    System(Counts(0, map[], now, 0), multiset{}, now, [now], 0, [])
  }

  // The clock never goes back, and a permit is dropped only while it is alive.
  predicate Possible(s: System, e: Event) {
    match e
    case Ask(_, now, later) => s.clock <= now <= later
    case Finish(ip) => ip in s.live
  }

  function Step(s: System, e: Event): (r: System)
    requires Possible(s, e) && |s.windows| > 0
    ensures |r.windows| >= |s.windows|
  {
    match e
    case Finish(ip) => s.(counts := Release(s.counts, ip), live := s.live - multiset{ip})
    case Ask(ip, now, later) =>
      var (counts, ok) := TryAcquire(s.counts, ip, now, later);
      var over := WindowIsOver(s.counts, now);
      var clock := if over then later else now;
      var windows := if over then s.windows + [later] else s.windows;
      System(counts, if ok then s.live + multiset{ip} else s.live, clock, windows, if over then 1 else s.asked + 1,
             if ok then s.log + [Admission(clock, |windows| - 1)] else s.log)
  }

  predicate PossibleRun(s: System, events: seq<Event>)
    requires |s.windows| > 0
    decreases |events|
  {
    events == [] || (Possible(s, events[0]) && PossibleRun(Step(s, events[0]), events[1..]))
  }

  function Play(s: System, events: seq<Event>): System
    requires |s.windows| > 0 && PossibleRun(s, events)
    decreases |events|
  {
    if events == [] then s else Play(Step(s, events[0]), events[1..])
  }

  // ---- What every run keeps ----

  ghost predicate CountsAreExact(s: System) {
    && s.counts.total == |s.live| <= MAX_ACTIVE
    && s.counts.startsInWindow == (if s.asked < MAX_STARTS then s.asked else MAX_STARTS)
    && (forall ip :: ip in s.counts.perIp <==> ip in s.live)
    && (forall ip :: ip in s.live ==> s.counts.perIp[ip] == s.live[ip] && 1 <= s.live[ip] <= MAX_ACTIVE_PER_IP)
  }

  ghost predicate WindowsAreApart(s: System) {
    && |s.windows| > 0
    && s.windows[|s.windows| - 1] == s.counts.windowStarted <= s.clock
    && forall v, w :: 0 <= v < w < |s.windows| ==> s.windows[v] + START_WINDOW <= s.windows[w]
  }

  ghost predicate LogIsInWindows(s: System) {
    && (forall i :: 0 <= i < |s.log| ==> s.log[i].at <= s.clock && s.log[i].window < |s.windows|)
    && (forall i :: 0 <= i < |s.log| && s.log[i].window < |s.windows| ==>
          s.windows[s.log[i].window] <= s.log[i].at < s.windows[s.log[i].window] + START_WINDOW)
    && (forall i, j :: 0 <= i < j < |s.log| ==> s.log[i].at <= s.log[j].at && s.log[i].window <= s.log[j].window)
  }

  // At most 256 admissions a window; those of the current window were all counted as starts.
  ghost predicate WindowsAreSmall(s: System) {
    && (forall i, j :: 0 <= i <= j < |s.log| && s.log[i].window == s.log[j].window ==> j - i < MAX_STARTS)
    && (forall i :: 0 <= i < |s.log| && s.log[i].window == |s.windows| - 1 ==> |s.log| - i <= s.counts.startsInWindow)
  }

  ghost predicate Sound(s: System) {
    CountsAreExact(s) && WindowsAreApart(s) && LogIsInWindows(s) && WindowsAreSmall(s)
  }

  lemma FinishKeepsCounts(s: System, ip: Ip)
    requires CountsAreExact(s) && |s.windows| > 0 && ip in s.live
    ensures CountsAreExact(Step(s, Finish(ip)))
  {
  }

  lemma AskKeepsCounts(s: System, ip: Ip, now: Instant, later: Instant)
    requires CountsAreExact(s) && |s.windows| > 0 && Possible(s, Ask(ip, now, later))
    ensures CountsAreExact(Step(s, Ask(ip, now, later)))
  {
  }

  lemma StepKeepsCounts(s: System, e: Event)
    requires CountsAreExact(s) && |s.windows| > 0 && Possible(s, e)
    ensures CountsAreExact(Step(s, e))
  {
    hide Step, CountsAreExact;
    match e {
      case Finish(ip) => FinishKeepsCounts(s, ip);
      case Ask(ip, now, later) => AskKeepsCounts(s, ip, now, later);
    }
  }

  lemma StepKeepsWindows(s: System, e: Event)
    requires WindowsAreApart(s) && Possible(s, e)
    ensures WindowsAreApart(Step(s, e))
  {
    hide CountOf;
  }

  lemma StepKeepsLog(s: System, e: Event)
    requires WindowsAreApart(s) && LogIsInWindows(s) && Possible(s, e)
    ensures LogIsInWindows(Step(s, e))
  {
    hide CountOf;
  }

  lemma StepKeepsSmall(s: System, e: Event)
    requires WindowsAreApart(s) && LogIsInWindows(s) && WindowsAreSmall(s) && s.counts.startsInWindow <= MAX_STARTS
    requires Possible(s, e)
    ensures WindowsAreSmall(Step(s, e))
  {
    hide CountOf;
  }

  lemma StepKeepsSound(s: System, e: Event)
    requires Sound(s) && Possible(s, e)
    ensures Sound(Step(s, e))
  {
    StepKeepsCounts(s, e);
    StepKeepsWindows(s, e);
    StepKeepsLog(s, e);
    StepKeepsSmall(s, e);
  }

  lemma {:induction false} RunKeepsSound(s: System, events: seq<Event>)
    requires Sound(s) && PossibleRun(s, events)
    ensures Sound(Play(s, events))
    decreases |events|
  {
    hide Step, CountsAreExact, LogIsInWindows, WindowsAreSmall;
    if events != [] {
      StepKeepsSound(s, events[0]);
      RunKeepsSound(Step(s, events[0]), events[1..]);
    }
  }

  // Over every run: the total is the number of live permits, every stored per-address count
  // is the number of live permits of that address, between 1 and 16, and at most 128 are live;
  // the counted starts are the connections that asked in the window, counted up to 256.
  lemma EveryRunIsSound(now: Instant, events: seq<Event>)
    requires PossibleRun(Start(now), events)
    ensures var s := Play(Start(now), events);
            Sound(s) && s.counts.total == |s.live| <= MAX_ACTIVE
  {
    RunKeepsSound(Start(now), events);
  }

  // ---- The total is the sum ----

  function SumOver(ips: seq<Ip>, perIp: map<Ip, nat>): nat
    requires forall i :: 0 <= i < |ips| ==> ips[i] in perIp
  {
    if ips == [] then 0 else perIp[ips[0]] + SumOver(ips[1..], perIp)
  }

  lemma {:induction false} SumIsTheSize(ips: seq<Ip>, perIp: map<Ip, nat>, live: multiset<Ip>)
    requires Distinct(ips) && forall ip :: ip in live ==> ip in ips
    requires forall i :: 0 <= i < |ips| ==> ips[i] in perIp && perIp[ips[i]] == live[ips[i]]
    ensures SumOver(ips, perIp) == |live|
  {
    if ips == [] {
      assert live == multiset{};
    } else {
      var ip, rest := ips[0], ips[1..];
      var others := live[ip := 0];
      assert forall i :: 0 <= i < |rest| ==> rest[i] == ips[i + 1];
      forall x | x in others ensures x in rest {
        assert x in ips && x != ip;
      }
      SumIsTheSize(rest, perIp, others);
      assert live == others[ip := live[ip]];
    }
  }

  // For every listing of the stored addresses.
  lemma TotalIsTheSum(s: System, ips: seq<Ip>)
    requires Sound(s) && Distinct(ips) && forall ip :: ip in ips <==> ip in s.counts.perIp
    ensures SumOver(ips, s.counts.perIp) == s.counts.total
  {
    SumIsTheSize(ips, s.counts.perIp, s.live);
  }

  // ---- Releasing and admitting ----

  // The saturating subtractions never saturate: dropping a live permit undoes one admission.
  lemma ReleaseIsExact(s: System, ip: Ip)
    requires Sound(s) && ip in s.live
    ensures s.counts.total >= 1 && ip in s.counts.perIp && s.counts.perIp[ip] >= 1
    ensures Release(s.counts, ip).total == s.counts.total - 1
    ensures CountOf(Release(s.counts, ip), ip) == CountOf(s.counts, ip) - 1
    ensures forall other :: other != ip ==> CountOf(Release(s.counts, ip), other) == CountOf(s.counts, other)
  {
  }

  lemma ReleaseUndoesAcquire(s: System, ip: Ip, now: Instant, later: Instant)
    requires Sound(s) && TryAcquire(s.counts, ip, now, later).1
    ensures var released := Release(TryAcquire(s.counts, ip, now, later).0, ip);
            released.total == s.counts.total && released.perIp == s.counts.perIp
  {
  }

  // A permit is given exactly when all three budgets have room, in terms of what is alive and
  // of how many asked in the window before, whether or not they were let in.
  lemma AdmittedIff(s: System, ip: Ip, now: Instant, later: Instant)
    requires Sound(s)
    ensures TryAcquire(s.counts, ip, now, later).1 <==>
            && (now - s.windows[|s.windows| - 1] >= 10_000_000_000 || s.asked < 256)
            && |s.live| < 128 && s.live[ip] < 16
  {
  }

  // A refusal changes neither the total nor the address's count.
  lemma RefusalTakesNothing(s: System, ip: Ip, now: Instant, later: Instant)
    requires Sound(s) && Possible(s, Ask(ip, now, later)) && !TryAcquire(s.counts, ip, now, later).1
    ensures var r := Step(s, Ask(ip, now, later));
            r.live == s.live && r.counts.total == s.counts.total && r.counts.perIp == s.counts.perIp && r.log == s.log
  {
  }

  // ---- The rate ----

  lemma WindowsTwoApart(s: System, v: nat, w: nat)
    requires WindowsAreApart(s) && v + 1 < w < |s.windows|
    ensures s.windows[v] + 2 * START_WINDOW <= s.windows[w]
  {
    assert s.windows[v] + START_WINDOW <= s.windows[v + 1];
  }

  // Admissions no further than 10 seconds apart lie in at most two windows.
  lemma AtMostTwoWindows(s: System, i: nat, j: nat)
    requires Sound(s) && i <= j < |s.log| && s.log[j].window > s.log[i].window + 1
    ensures s.log[j].at - s.log[i].at > START_WINDOW
  {
    WindowsTwoApart(s, s.log[i].window, s.log[j].window);
  }

  lemma {:induction false} TwoWindowsAreSmall(s: System, i: nat, j: nat)
    requires Sound(s) && i <= j < |s.log| && s.log[j].window <= s.log[i].window + 1
    ensures j - i < 2 * MAX_STARTS
    decreases j - i
  {
    if s.log[i].window < s.log[j].window {
      if s.log[i + 1].window == s.log[i].window {
        var m := i + 1;
        while m < j && s.log[m].window == s.log[i].window
          invariant i < m <= j && s.log[m - 1].window == s.log[i].window
        {
          m := m + 1;
        }
        assert m - 1 - i < MAX_STARTS;
        assert j - m < MAX_STARTS;
      }
    }
  }

  // Over every run, no 10 seconds see more than 512 admissions: the log is in the order of
  // time, and 513 admissions in a row span more than 10 seconds.
  lemma RateIsBounded(now: Instant, events: seq<Event>, i: nat, j: nat)
    requires PossibleRun(Start(now), events) && i <= j < |Play(Start(now), events).log|
    ensures var log := Play(Start(now), events).log;
            log[i].at <= log[j].at && (log[j].at - log[i].at <= START_WINDOW ==> j - i < 2 * MAX_STARTS)
  {
    hide Play, PossibleRun;
    EveryRunIsSound(now, events);
    var s := Play(Start(now), events);
    if s.log[j].window > s.log[i].window + 1 {
      AtMostTwoWindows(s, i, j);
    } else {
      TwoWindowsAreSmall(s, i, j);
    }
  }

  // ---- The bound is reached ----

  // n connections that come and go at one instant
  function Burst(n: nat, ip: Ip, at: Instant): seq<Event> {
    if n == 0 then [] else [Ask(ip, at, at), Finish(ip)] + Burst(n - 1, ip, at)
  }

  ghost predicate Quiet(s: System, at: Instant) {
    Sound(s) && s.live == multiset{} && s.clock <= at
  }

  function StartsAt(s: System, at: Instant): nat {
    if WindowIsOver(s.counts, at) then 0 else s.counts.startsInWindow
  }

  lemma OneComesAndGoes(s: System, ip: Ip, at: Instant)
    requires Quiet(s, at) && StartsAt(s, at) < MAX_STARTS
    ensures Possible(s, Ask(ip, at, at)) && Possible(Step(s, Ask(ip, at, at)), Finish(ip))
    ensures var t := Step(Step(s, Ask(ip, at, at)), Finish(ip));
            && Quiet(t, at) && StartsAt(t, at) == StartsAt(s, at) + 1
            && (!WindowIsOver(s.counts, at) ==> t.counts.windowStarted == s.counts.windowStarted)
            && |t.log| == |s.log| + 1 && s.log <= t.log && t.log[|s.log|].at == at
  {
    hide LogIsInWindows, WindowsAreSmall, CountOf;
    AdmittedIff(s, ip, at, at);
    var e := Ask(ip, at, at);
    var m := Step(s, e);
    StepKeepsSound(s, e);
    assert m.live == multiset{ip};
    assert Possible(m, Finish(ip));
    StepKeepsSound(m, Finish(ip));
  }

  lemma {:induction false} BurstIsAdmitted(s: System, n: nat, ip: Ip, at: Instant)
    requires Quiet(s, at) && StartsAt(s, at) + n <= MAX_STARTS
    ensures PossibleRun(s, Burst(n, ip, at))
    ensures var t := Play(s, Burst(n, ip, at));
            && Quiet(t, at) && (!WindowIsOver(s.counts, at) ==> t.counts.windowStarted == s.counts.windowStarted)
            && |t.log| == |s.log| + n && s.log <= t.log
            && forall i :: |s.log| <= i < |t.log| ==> t.log[i].at == at
    decreases n
  {
    hide Step, CountsAreExact, LogIsInWindows, WindowsAreSmall;
    if n > 0 {
      OneComesAndGoes(s, ip, at);
      var m := Step(s, Ask(ip, at, at));
      var u := Step(m, Finish(ip));
      BurstIsAdmitted(u, n - 1, ip, at);
      var events := Burst(n, ip, at);
      assert events[0] == Ask(ip, at, at) && events[1..][0] == Finish(ip) && events[1..][1..] == Burst(n - 1, ip, at);
      assert Play(s, events) == Play(m, events[1..]) == Play(u, Burst(n - 1, ip, at));
    }
  }

  lemma {:induction false} PlayConcat(s: System, a: seq<Event>, b: seq<Event>)
    requires |s.windows| > 0 && PossibleRun(s, a) && |Play(s, a).windows| > 0 && PossibleRun(Play(s, a), b)
    ensures PossibleRun(s, a + b) && Play(s, a + b) == Play(Play(s, a), b)
    decreases |a|
  {
    hide Step;
    if a == [] {
      assert a + b == b;
    } else {
      assert (a + b)[0] == a[0] && (a + b)[1..] == a[1..] + b;
      PlayConcat(Step(s, a[0]), a[1..], b);
    }
  }

  // A burst in the last nanosecond of a window and one in the first of the next: 512
  // connections are admitted within one nanosecond.
  lemma RateBoundIsReached(ip: Ip)
    returns (events: seq<Event>)
    ensures PossibleRun(Start(0), events)
    ensures var log := Play(Start(0), events).log;
            |log| == 2 * MAX_STARTS && forall i :: 0 <= i < |log| ==> START_WINDOW - 1 <= log[i].at <= START_WINDOW
  {
    hide Play, PossibleRun;
    var s := Start(0);
    var early, late := Burst(MAX_STARTS, ip, START_WINDOW - 1), Burst(MAX_STARTS, ip, START_WINDOW);
    assert Quiet(s, START_WINDOW - 1);
    BurstIsAdmitted(s, MAX_STARTS, ip, START_WINDOW - 1);
    var t := Play(s, early);
    BurstIsAdmitted(t, MAX_STARTS, ip, START_WINDOW);
    PlayConcat(s, early, late);
    events := early + late;
  }
}
