/**
 Per-handle login backoff: internal/bbs/backoff.go over the limiter of module
 Limits. begin, release and end are atomic steps.
 */
module Backoff {
  import opened Limits

  const SECOND: int := 1_000_000_000
  const WINDOW: int := 900 * SECOND
  const FREE := 3
  const BASE: int := 2 * SECOND
  const MAX: int := 60 * SECOND

  function Doubled(k: nat): (d: int)
    ensures d >= BASE
  {
    if k == 0 then BASE else 2 * Doubled(k - 1)
  }

  /** The wait required after n recent failures. */
  function DelayFor(n: nat): (d: int)
    ensures 0 <= d <= MAX
  {
    if n < FREE then 0
    else
      var d := Doubled(if n - FREE < 10 then n - FREE else 10);
      if d < MAX then d else MAX
  }

  // ---- the state ------------------------------------------------------------------

  /** The failure limiter with its history, and the handles being checked. */
  datatype State = State(fails: World, busy: set<string>)

  datatype Event =
    | Begin(key: string, now: int)
    | Release(key: string, now: int)
    | EndFailed(key: string, now: int)
    | EndOk(key: string, now: int)
    | Restart(now: int)
    | Other(op: Op)

  function When(e: Event): int { if e.Other? then e.op.now else e.now }

  /** begin: how long to wait, or 0 with the check reserved. */
  function WaitFor(fails: Limiter, busy: set<string>, key: string, now: int): int {
    if key in busy then BASE
    else
      var st := StatsFor(fails, key, now);
      var wait := st.last + DelayFor(st.count) - now;
      if st.count > 0 && wait > 0 then wait else 0
  }

  function Wait(s: State, key: string, now: int): int { WaitFor(s.fails.lim, s.busy, key, now) }

  /** Only the caller that began a check releases or ends it; other limiters
      write to the same table. */
  predicate CanStep(s: State, e: Event) {
    When(e) >= s.fails.clock
    && match e
       case Release(key, _) => key in s.busy
       case EndFailed(key, _) => key in s.busy
       case EndOk(key, _) => key in s.busy
       case Other(op) => (op.ForeignHit? || op.ForeignReset?) && Limits.CanStep(s.fails, op)
       case _ => true
  }

  function Step(s: State, e: Event): State {
    match e
    case Begin(key, now) =>
      if key in s.busy then s.(fails := s.fails.(clock := now))
      else State(Limits.Step(s.fails, LookAt(key, now)), if Wait(s, key, now) == 0 then s.busy + {key} else s.busy)
    case Release(key, now) => State(s.fails.(clock := now), s.busy - {key})
    case EndFailed(key, now) => State(Limits.Step(s.fails, HitAt(key, now)), s.busy - {key})
    case EndOk(key, now) => State(Limits.Step(s.fails, ResetAt(key, now)), s.busy - {key})
    case Restart(now) => State(Limits.Step(s.fails, RestartAt(now)), {})
    case Other(op) => s.(fails := Limits.Step(s.fails, op))
  }

  function Start(clock: int): State { State(Limits.Start(0, WINDOW, "login-handle", clock), {}) }

  function Run(clock: int, events: seq<Event>): State {
    if events == [] then Start(clock) else Step(Run(clock, events[..|events| - 1]), events[|events| - 1])
  }

  predicate CanRun(clock: int, events: seq<Event>) {
    events == [] || (CanRun(clock, events[..|events| - 1]) && CanStep(Run(clock, events[..|events| - 1]), events[|events| - 1]))
  }

  /** The failed checks of key since its last success. */
  function Fails(s: State, key: string): seq<int> { Hits(s.fails.hist, key) }

  // ---- the waits --------------------------------------------------------------------

  lemma {:induction false} DoubledGrows(k: nat, m: nat)
    requires k <= m
    ensures Doubled(k) <= Doubled(m)
  {
    if k < m {
      DoubledGrows(k, m - 1);
    }
  }

  lemma DelayGrows(n: nat, m: nat)
    requires n <= m
    ensures DelayFor(n) <= DelayFor(m)
  {
    if n >= FREE {
      DoubledGrows(if n - FREE < 10 then n - FREE else 10, if m - FREE < 10 then m - FREE else 10);
    }
  }

  /** 0, 0, 2, 4, 8, 16, 32, 60, 60, ... seconds after the first, second, third
      failure and so on. */
  lemma Delays(n: nat)
    ensures n <= 2 ==> DelayFor(n) == 0
    ensures n == 3 ==> DelayFor(n) == 2 * SECOND
    ensures n == 4 ==> DelayFor(n) == 4 * SECOND
    ensures n == 5 ==> DelayFor(n) == 8 * SECOND
    ensures n == 6 ==> DelayFor(n) == 16 * SECOND
    ensures n == 7 ==> DelayFor(n) == 32 * SECOND
    ensures n >= 8 ==> DelayFor(n) == MAX
  {
    assert Doubled(0) == BASE;
    assert Doubled(2) == 8 * SECOND;
    assert Doubled(4) == 32 * SECOND;
    assert Doubled(5) == 64 * SECOND;
    if n >= 8 {
      DoubledGrows(5, if n - FREE < 10 then n - FREE else 10);
    }
  }

  /** The least time from a failure to the m-th one after it. */
  function TotalWait(m: nat): int { if m == 0 then 0 else TotalWait(m - 1) + DelayFor(m) }

  lemma {:induction false} TotalWaitIs(m: nat)
    ensures m <= 2 ==> TotalWait(m) == 0
    ensures m == 3 ==> TotalWait(m) == 2 * SECOND
    ensures m == 4 ==> TotalWait(m) == 6 * SECOND
    ensures m == 5 ==> TotalWait(m) == 14 * SECOND
    ensures m == 6 ==> TotalWait(m) == 30 * SECOND
    ensures m >= 7 ==> TotalWait(m) == 62 * SECOND + (m - 7) * MAX
  {
    Delays(m);
    if m > 0 {
      TotalWaitIs(m - 1);
    }
  }

  // ---- the invariant ------------------------------------------------------------------

  /** A failure ends at least the required wait after the one before it, counting
      every failure still inside the window. */
  ghost predicate Spaced(f: seq<int>) { forall i, j :: Apart(f, i, j) }

  ghost predicate Apart(f: seq<int>, i: int, j: int) {
    0 <= i <= j < |f| - 1 && f[j + 1] - f[i] < WINDOW ==> f[j + 1] - f[j] >= DelayFor(j - i + 1)
  }

  /** Ending a check of key now would keep the failures spaced. */
  ghost predicate Ready(f: seq<int>, now: int) {
    forall i :: 0 <= i < |f| && now - f[i] < WINDOW ==> now - f[|f| - 1] >= DelayFor(|f| - i)
  }

  ghost predicate Inv(s: State) {
    && Limits.Inv(s.fails) && s.fails.lim.window == WINDOW
    && forall key :: Spaced(Fails(s, key)) && (key in s.busy ==> Ready(Fails(s, key), s.fails.clock))
  }

  lemma ReadyLater(f: seq<int>, now: int, later: int)
    requires Ready(f, now) && later >= now
    ensures Ready(f, later)
  {
  }

  lemma SpacedPush(f: seq<int>, now: int)
    requires Spaced(f) && Ready(f, now)
    ensures Spaced(f + [now])
  {
    hide DelayFor;
    var g := f + [now];
    forall i, j ensures Apart(g, i, j) {
      assert Apart(f, i, j);
    }
  }

  /** The failures a later cutoff lets through are the last ones. */
  lemma {:induction false} RecentCount(f: seq<int>, cutoff: int, i: nat)
    requires Ordered(f) && i < |f| && f[i] > cutoff
    ensures |After(f, cutoff)| >= |f| - i
    ensures After(f, cutoff)[|After(f, cutoff)| - 1] == f[|f| - 1]
  {
    assert f == [f[0]] + f[1..];
    if |f| == 1 {
      assert f[1..] == [];
    } else if i == 0 {
      RecentCount(f[1..], cutoff, 0);
    } else {
      RecentCount(f[1..], cutoff, i - 1);
    }
  }

  /** A check that may begin finds the required wait passed. */
  lemma BeginReady(s: State, key: string, now: int)
    requires Inv(s) && now >= s.fails.clock && key !in s.busy && Wait(s, key, now) == 0
    ensures Ready(Fails(s, key), now)
  {
    hide DelayFor, After, Spaced, Saved, RowsOrdered;
    var f := Fails(s, key);
    assert Agrees(s.fails, key);
    AgreesLater(s.fails, now, key);
    var recent := After(f, now - WINDOW);
    forall i | 0 <= i < |f| && now - f[i] < WINDOW ensures now - f[|f| - 1] >= DelayFor(|f| - i) {
      RecentCount(f, now - WINDOW, i);
      DelayGrows(|f| - i, |recent|);
    }
  }

  lemma ClockKeeps(w: World, now: int)
    requires Limits.Inv(w) && now >= w.clock
    ensures Limits.Inv(w.(clock := now))
  {
    hide After, Saved, RowsOrdered, Ordered;
    forall key ensures Agrees(w.(clock := now), key) {
      AgreesLater(w, now, key);
    }
  }

  lemma StepInv(s: State, e: Event)
    requires Inv(s) && CanStep(s, e)
    ensures Inv(Step(s, e))
  {
    hide Limits.Inv, Spaced, Ready, Wait, AddHit, Look, Restarted, RecordHit, Without, DelayFor;
    var t := Step(s, e);
    FailsLimiter(s, e);
    forall key ensures Spaced(Fails(t, key)) && (key in t.busy ==> Ready(Fails(t, key), t.fails.clock)) {
      assert Spaced(Fails(s, key));
      if key in s.busy {
        ReadyLater(Fails(s, key), s.fails.clock, When(e));
      }
      if e.Begin? && key !in s.busy && key in t.busy {
        BeginReady(s, key, e.now);
      }
      if e.EndFailed? && key == e.key {
        SpacedPush(Fails(s, key), e.now);
      }
      NoneSpaced();
    }
  }

  lemma NoneSpaced()
    ensures Spaced([])
  {
  }

  lemma FailsLimiter(s: State, e: Event)
    requires Inv(s) && CanStep(s, e)
    ensures Limits.Inv(Step(s, e).fails) && Step(s, e).fails.lim.window == WINDOW && Step(s, e).fails.clock == When(e)
  {
    hide Limits.Inv, Spaced, Ready, Wait, AddHit, Look, Restarted, RecordHit, Without, DelayFor;
    match e
    case Begin(key, now) =>
      if key in s.busy {
        ClockKeeps(s.fails, now);
      } else {
        StepKeeps(s.fails, LookAt(key, now));
      }
    case Release(key, now) => ClockKeeps(s.fails, now);
    case EndFailed(key, now) => StepKeeps(s.fails, HitAt(key, now));
    case EndOk(key, now) => StepKeeps(s.fails, ResetAt(key, now));
    case Restart(now) => StepKeeps(s.fails, RestartAt(now));
    case Other(op) => StepKeeps(s.fails, op);
  }

  lemma {:induction false} RunInv(clock: int, events: seq<Event>)
    requires CanRun(clock, events)
    ensures Inv(Run(clock, events))
  {
    hide Step, Inv, CanStep;
    if events == [] {
      EmptyInv(clock);
    } else {
      RunInv(clock, events[..|events| - 1]);
      StepInv(Run(clock, events[..|events| - 1]), events[|events| - 1]);
    }
  }

  lemma EmptyInv(clock: int)
    ensures Inv(Start(clock))
  {
    StartInv(0, WINDOW, "login-handle", clock);
  }

  // ---- the bound ------------------------------------------------------------------------

  lemma {:induction false} LeastTime(f: seq<int>, i: nat, m: nat)
    requires Spaced(f) && Ordered(f) && i + m < |f| && f[i + m] - f[i] < WINDOW
    ensures f[i + m] - f[i] >= TotalWait(m)
  {
    hide DelayFor;
    if m > 0 {
      assert f[i + m - 1] <= f[i + m];
      LeastTime(f, i, m - 1);
      var j := i + m - 1;
      assert Apart(f, i, j);
    }
  }

  /** The guess bound: however the checks, crashes and restarts of the program
      fall, at most 21 failed checks of one handle end inside any 15 minutes
      without a successful login between them. */
  lemma GuessBound(clock: int, events: seq<Event>, key: string, i: nat, j: nat)
    requires CanRun(clock, events)
    requires i <= j < |Fails(Run(clock, events), key)|
    requires Fails(Run(clock, events), key)[j] - Fails(Run(clock, events), key)[i] < WINDOW
    ensures j - i + 1 <= 21
  {
    hide Run, DelayFor, TotalWait, CanRun;
    RunInv(clock, events);
    var f := Fails(Run(clock, events), key);
    assert Spaced(f) && Ordered(f);
    if j - i >= 21 {
      assert f[i + 21] <= f[j];
      LeastTime(f, i, 21);
      TotalWaitIs(21);
    }
  }

  // ---- the bound is exact -----------------------------------------------------------------

  /** Someone guessing as fast as the backoff lets them. */
  function Burst(key: string, m: nat): seq<Event> {
    if m == 0 then [] else Burst(key, m - 1) + [Begin(key, TotalWait(m - 1)), EndFailed(key, TotalWait(m - 1))]
  }

  function Times(m: nat): (t: seq<int>)
    ensures |t| == m && forall i :: 0 <= i < m ==> t[i] == TotalWait(i)
  {
    seq(m, i requires 0 <= i => TotalWait(i))
  }

  lemma RunPush(clock: int, events: seq<Event>, a: Event, b: Event)
    requires CanRun(clock, events) && CanStep(Run(clock, events), a) && CanStep(Step(Run(clock, events), a), b)
    ensures CanRun(clock, events + [a, b])
    ensures Run(clock, events + [a, b]) == Step(Step(Run(clock, events), a), b)
  {
    hide CanStep, Step;
    var all := events + [a, b];
    assert all[..|all| - 1] == events + [a];
    assert (events + [a])[..|events|] == events;
  }

  lemma {:induction false} AllAfter(s: seq<int>, cutoff: int)
    requires forall i :: 0 <= i < |s| ==> s[i] > cutoff
    ensures After(s, cutoff) == s
  {
    if s != [] {
      AllAfter(s[1..], cutoff);
      assert s == [s[0]] + s[1..];
    }
  }

  /** With m failures behind it, each inside the window, the next check may begin
      as soon as the wait for m failures is over. */
  lemma BurstBegins(s: State, key: string, m: nat)
    requires Inv(s) && Fails(s, key) == Times(m) && key !in s.busy && m <= 20
    requires s.fails.clock <= TotalWait(m)
    ensures Wait(s, key, TotalWait(m)) == 0
  {
    hide DelayFor, After, Spaced, Saved, RowsOrdered, TotalWait;
    assert Agrees(s.fails, key);
    AgreesLater(s.fails, TotalWait(m), key);
    WaitsInWindow(m);
    AllAfter(Times(m), TotalWait(m) - WINDOW);
    if m > 0 {
      WaitStep(m);
    }
  }

  lemma WaitStep(m: nat)
    requires m > 0
    ensures TotalWait(m) == TotalWait(m - 1) + DelayFor(m)
  {
  }

  lemma WaitsInWindow(m: nat)
    requires m <= 20
    ensures forall i :: 0 <= i <= m ==> TotalWait(i) > TotalWait(m) - WINDOW
  {
    hide TotalWait;
    TotalWaitIs(m);
    forall i | 0 <= i <= m ensures TotalWait(i) > TotalWait(m) - WINDOW {
      TotalWaitIs(i);
    }
  }

  lemma {:induction false} BurstRuns(key: string, m: nat)
    requires m <= 21
    ensures CanRun(0, Burst(key, m))
    ensures var s := Run(0, Burst(key, m)); Fails(s, key) == Times(m) && s.busy == {} && s.fails.clock <= TotalWait(m)
  {
    hide DelayFor, Inv, Run, CanRun, Spaced, Wait, AddHit, RecordHit, Look;
    if m == 0 {
      StartRuns();
    } else {
      BurstRuns(key, m - 1);
      WaitStep(m);
      var s, t := Run(0, Burst(key, m - 1)), TotalWait(m - 1);
      RunInv(0, Burst(key, m - 1));
      BurstBegins(s, key, m - 1);
      RunPush(0, Burst(key, m - 1), Begin(key, t), EndFailed(key, t));
      assert Times(m) == Times(m - 1) + [t];
    }
  }

  lemma StartRuns()
    ensures CanRun(0, []) && Run(0, []) == Start(0)
  {
  }

  /** 21 failed checks do fit: the bound cannot be lowered. */
  lemma GuessBoundReached(key: string)
    ensures CanRun(0, Burst(key, 21))
    ensures var f := Fails(Run(0, Burst(key, 21)), key); |f| == 21 && f[20] - f[0] < WINDOW
  {
    hide Run, CanRun, TotalWait, Burst;
    BurstRuns(key, 21);
    TotalWaitIs(0);
    TotalWaitIs(20);
  }

  // ---- the methods of the program ------------------------------------------------------------

  class LoginBackoff {
    const fails: RateLimiter
    var busy: set<string>

    constructor (fails: RateLimiter)
      ensures this.fails == fails && busy == {}
    {
      this.fails, busy := fails, {};
    }

    method TryBegin(key: string, now: int) returns (wait: int, ok: bool)
      modifies this, fails
      ensures wait == WaitFor(old(fails.Value()), old(busy), key, now) && (ok <==> wait == 0)
      ensures busy == if ok then old(busy) + {key} else old(busy)
      ensures fails.Value() == if key in old(busy) then old(fails.Value()) else Look(old(fails.Value()), key, now)
    {
      if key in busy {
        return BASE, false;
      }
      var st := fails.GetStats(key, now);
      wait := st.last + DelayFor(st.count) - now;
      if st.count > 0 && wait > 0 {
        return wait, false;
      }
      busy := busy + {key};
      return 0, true;
    }

    method Release(key: string)
      modifies this
      ensures busy == old(busy) - {key}
    {
      busy := busy - {key};
    }

    method End(key: string, ok: bool, now: int)
      requires fails.db as object != fails && fails.db as object != this
      modifies this, fails, fails.db
      ensures busy == old(busy) - {key}
      ensures fails.Value() == if ok then old(fails.Value()).(hits := old(fails.hits) - {key}) else AddHit(old(fails.Value()), key, now)
      ensures fails.db.rows == if ok then Without(old(fails.db.rows), fails.bucket, key)
                               else RecordHit(old(fails.db.rows), Hit(fails.bucket, key, now))
    {
      busy := busy - {key};
      if ok {
        fails.Reset(key);
      } else {
        fails.AddOne(key, now);
      }
    }
  }
}
