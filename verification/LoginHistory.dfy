/** The login limiter over whole runs: which calls its table still holds, and how far it agrees with a
    counter that forgets nothing. */
module LoginHistory {
  import opened Basics
  import opened LoginLimiter

  datatype Call = Call(ip: string, now: int)

  /** The counter that forgets nothing: every call allowed since the table was last emptied. */
  function Record(table: Table, history: Table, limit: int, window: int, c: Call): Table
  {
    var kept := if |table| > MAX_TRACKED then map[] else history;
    if Permits(table, limit, window, c.ip, c.now) then kept[c.ip := Entries(kept, c.ip) + [c.now]] else kept
  }

  /** The limiter's table and the full history side by side, call by call. */
  datatype Run = Run(calls: seq<Call>, tables: seq<Table>, histories: seq<Table>)

  predicate Shaped(run: Run)
  {
    |run.tables| == |run.histories| == |run.calls| + 1
  }

  ghost predicate StepsAt(run: Run, limit: int, window: int, n: nat)
    requires Shaped(run)
  {
    n < |run.calls| ==>
      var c := run.calls[n];
      && run.tables[n + 1] == Next(run.tables[n], limit, window, c.ip, c.now)
      && run.histories[n + 1] == Record(run.tables[n], run.histories[n], limit, window, c)
  }

  ghost predicate ValidRun(run: Run, limit: int, window: int)
  {
    && Shaped(run)
    && run.tables[0] == map[]
    && run.histories[0] == map[]
    && forall n: nat {:trigger StepsAt(run, limit, window, n)} :: StepsAt(run, limit, window, n)
  }

  /** The readings of one address never go back. */
  ghost predicate Ordered(calls: seq<Call>, ip: string)
  {
    forall i, j :: 0 <= i < j < |calls| && calls[i].ip == ip && calls[j].ip == ip ==> calls[i].now <= calls[j].now
  }

  ghost predicate Allowed(run: Run, limit: int, window: int, n: nat)
    requires Shaped(run) && n < |run.calls|
  {
    Permits(run.tables[n], limit, window, run.calls[n].ip, run.calls[n].now)
  }

  /** The history call n is judged against: the whole of it, unless the table is emptied first. */
  function Judged(run: Run, n: nat, ip: string): seq<int>
    requires Shaped(run) && n < |run.calls|
  {
    if |run.tables[n]| > MAX_TRACKED then [] else Entries(run.histories[n], ip)
  }

  // ---------------------------------------------------------------- exactly what the table holds

  /** The readings of the first m calls that p picks, in order. */
  ghost function Pick(calls: seq<Call>, m: nat, p: nat -> bool): seq<int>
    requires m <= |calls|
  {
    if m == 0 then []
    else if p(m - 1) then Pick(calls, m - 1, p) + [calls[m - 1].now]
    else Pick(calls, m - 1, p)
  }

  lemma {:induction false} PickSame(calls: seq<Call>, m: nat, p: nat -> bool, q: nat -> bool)
    requires m <= |calls| && forall k: nat :: k < m ==> (p(k) <==> q(k))
    ensures Pick(calls, m, p) == Pick(calls, m, q)
  {
    if m > 0 {
      PickSame(calls, m - 1, p, q);
    }
  }

  lemma {:induction false} PickLater(calls: seq<Call>, m: nat, p: nat -> bool, q: nat -> bool, cutoff: int)
    requires m <= |calls| && forall k: nat :: k < m ==> (q(k) <==> p(k) && calls[k].now > cutoff)
    ensures Later(Pick(calls, m, p), cutoff) == Pick(calls, m, q)
  {
    if m > 0 {
      PickLater(calls, m - 1, p, q, cutoff);
      if p(m - 1) {
        LaterAppend(Pick(calls, m - 1, p), calls[m - 1].now, cutoff);
      }
    }
  }

  lemma {:induction false} PickSplits(calls: seq<Call>, m: nat, p: nat -> bool, q: nat -> bool, r: nat -> bool)
    requires m <= |calls| && forall k: nat :: k < m ==> (p(k) <==> q(k) || r(k)) && !(q(k) && r(k))
    ensures |Pick(calls, m, p)| == |Pick(calls, m, q)| + |Pick(calls, m, r)|
  {
    if m > 0 {
      PickSplits(calls, m - 1, p, q, r);
    }
  }

  /** Call j empties the table before anything else. */
  ghost predicate Empties(run: Run, j: nat)
    requires Shaped(run) && j < |run.calls|
  {
    |run.tables[j]| > MAX_TRACKED
  }

  /** Call k was allowed for the address, and no call after it and before n emptied the table. */
  ghost predicate Standing(run: Run, limit: int, window: int, ip: string, n: nat, k: nat)
    requires Shaped(run) && n <= |run.calls|
  {
    && k < n
    && run.calls[k].ip == ip
    && Allowed(run, limit, window, k)
    && forall j :: k < j < n ==> !Empties(run, j)
  }

  /** Call k lies in the window of every later call of the address before n. */
  ghost predicate Fresh(run: Run, window: int, ip: string, n: nat, k: nat)
    requires n <= |run.calls|
  {
    k < n && forall j :: k < j < n && run.calls[j].ip == ip ==> run.calls[k].now > run.calls[j].now - window
  }

  ghost function IsStanding(run: Run, limit: int, window: int, ip: string, n: nat): nat -> bool
    requires Shaped(run) && n <= |run.calls|
  {
    (k: nat) => Standing(run, limit, window, ip, n, k)
  }

  ghost function IsFresh(run: Run, limit: int, window: int, ip: string, n: nat): nat -> bool
    requires Shaped(run) && n <= |run.calls|
  {
    (k: nat) => Standing(run, limit, window, ip, n, k) && Fresh(run, window, ip, n, k)
  }

  /** The allowed calls among the first m that count, with full memory, against call n. */
  ghost function AllOf(run: Run, limit: int, window: int, ip: string, m: nat, n: nat): seq<int>
    requires Shaped(run) && m <= n <= |run.calls|
  {
    Pick(run.calls, m, IsStanding(run, limit, window, ip, n))
  }

  ghost function FreshOf(run: Run, limit: int, window: int, ip: string, m: nat, n: nat): seq<int>
    requires Shaped(run) && m <= n <= |run.calls|
  {
    Pick(run.calls, m, IsFresh(run, limit, window, ip, n))
  }

  lemma {:induction false} PickNone(calls: seq<Call>, m: nat, p: nat -> bool)
    requires m <= |calls| && forall k: nat :: k < m ==> !p(k)
    ensures Pick(calls, m, p) == []
  {
    if m > 0 {
      PickNone(calls, m - 1, p);
    }
  }

  /** What the next call does to the calls before it. */
  lemma FreshStep(run: Run, limit: int, window: int, ip: string, n: nat)
    requires Shaped(run) && n < |run.calls|
    ensures var c := run.calls[n];
      FreshOf(run, limit, window, ip, n, n + 1) ==
        if Empties(run, n) then []
        else if c.ip == ip then Later(FreshOf(run, limit, window, ip, n, n), c.now - window)
        else FreshOf(run, limit, window, ip, n, n)
  {
    var p, q := IsFresh(run, limit, window, ip, n), IsFresh(run, limit, window, ip, n + 1);
    if Empties(run, n) {
      PickNone(run.calls, n, q);
    } else if run.calls[n].ip == ip {
      PickLater(run.calls, n, p, q, run.calls[n].now - window);
    } else {
      PickSame(run.calls, n, p, q);
    }
  }

  lemma AllStep(run: Run, limit: int, window: int, ip: string, n: nat)
    requires Shaped(run) && n < |run.calls|
    ensures AllOf(run, limit, window, ip, n, n + 1) ==
              if Empties(run, n) then [] else AllOf(run, limit, window, ip, n, n)
  {
    var p, q := IsStanding(run, limit, window, ip, n), IsStanding(run, limit, window, ip, n + 1);
    if Empties(run, n) {
      PickNone(run.calls, n, q);
    } else {
      PickSame(run.calls, n, p, q);
    }
  }

  /** Whatever the clock does, the table holds exactly the allowed calls that lie in the window of every
      later call of their address. */
  lemma {:induction false} TableHoldsFresh(run: Run, limit: int, window: int, n: nat, ip: string)
    requires ValidRun(run, limit, window) && n <= |run.calls|
    ensures Entries(run.tables[n], ip) == FreshOf(run, limit, window, ip, n, n)
  {
    if n > 0 {
      TableHoldsFresh(run, limit, window, n - 1, ip);
      FreshStep(run, limit, window, ip, n - 1);
      TableStep(run, limit, window, n - 1, ip);
    }
  }

  /** The readings, and that of call n if it is the address's and allowed. */
  ghost function With(ts: seq<int>, run: Run, limit: int, window: int, ip: string, n: nat): seq<int>
    requires Shaped(run) && n < |run.calls|
  {
    if run.calls[n].ip == ip && Allowed(run, limit, window, n) then ts + [run.calls[n].now] else ts
  }

  lemma TableStep(run: Run, limit: int, window: int, n: nat, ip: string)
    requires ValidRun(run, limit, window) && n < |run.calls|
    ensures var c := run.calls[n];
      var base := if Empties(run, n) then [] else Entries(run.tables[n], ip);
      Entries(run.tables[n + 1], ip) ==
        With(if c.ip == ip then Later(base, c.now - window) else base, run, limit, window, ip, n)
  {
    assert StepsAt(run, limit, window, n);
    assert Later([], run.calls[n].now - window) == [];
  }

  lemma HistoryStep(run: Run, limit: int, window: int, n: nat, ip: string)
    requires ValidRun(run, limit, window) && n < |run.calls|
    ensures Entries(run.histories[n + 1], ip) ==
              With(if Empties(run, n) then [] else Entries(run.histories[n], ip), run, limit, window, ip, n)
  {
    assert StepsAt(run, limit, window, n);
  }

  lemma {:induction false} HistoryHoldsAll(run: Run, limit: int, window: int, n: nat, ip: string)
    requires ValidRun(run, limit, window) && n <= |run.calls|
    ensures Entries(run.histories[n], ip) == AllOf(run, limit, window, ip, n, n)
  {
    if n > 0 {
      HistoryHoldsAll(run, limit, window, n - 1, ip);
      AllStep(run, limit, window, ip, n - 1);
      HistoryStep(run, limit, window, n - 1, ip);
    }
  }

  /** Whatever the clock does, a call is allowed exactly when fewer than limit allowed calls of its
      address lie in its own window and in that of every call since. */
  lemma AllowedExactly(run: Run, limit: int, window: int, n: nat)
    requires ValidRun(run, limit, window) && n < |run.calls|
    ensures Allowed(run, limit, window, n) <==> |FreshOf(run, limit, window, run.calls[n].ip, n, n + 1)| < limit
  {
    var ip := run.calls[n].ip;
    TableHoldsFresh(run, limit, window, n, ip);
    FreshStep(run, limit, window, ip, n);
  }

  // ---------------------------------------------------------------- over the limit

  /** The allowed calls in the window of call n, as a counter that forgets nothing sees them. */
  ghost function InItsWindow(run: Run, n: nat, window: int): seq<int>
    requires Shaped(run) && n < |run.calls|
  {
    Later(Judged(run, n, run.calls[n].ip), run.calls[n].now - window)
  }

  /** Call k is in the window of call n, but a call in between was so much newer that k was forgotten. */
  ghost predicate Forgotten(run: Run, limit: int, window: int, n: nat, k: nat)
    requires Shaped(run) && n < |run.calls|
  {
    && Standing(run, limit, window, run.calls[n].ip, n + 1, k)
    && run.calls[k].now > run.calls[n].now - window
    && exists j :: k < j < n && run.calls[j].ip == run.calls[n].ip && run.calls[k].now <= run.calls[j].now - window
  }

  ghost function IsForgotten(run: Run, limit: int, window: int, n: nat): nat -> bool
    requires Shaped(run) && n < |run.calls|
  {
    (k: nat) => Forgotten(run, limit, window, n, k)
  }

  ghost function ForgottenOf(run: Run, limit: int, window: int, n: nat): seq<int>
    requires Shaped(run) && n < |run.calls|
  {
    Pick(run.calls, n, IsForgotten(run, limit, window, n))
  }

  /** What is in the window is what the table still has of it and what it has forgotten. */
  lemma WindowSplits(run: Run, limit: int, window: int, n: nat)
    requires ValidRun(run, limit, window) && n < |run.calls|
    ensures |InItsWindow(run, n, window)| ==
              |FreshOf(run, limit, window, run.calls[n].ip, n, n + 1)| + |ForgottenOf(run, limit, window, n)|
  {
    var ip, cutoff := run.calls[n].ip, run.calls[n].now - window;
    var p := IsStanding(run, limit, window, ip, n + 1);
    var w := (k: nat) => k < n && Standing(run, limit, window, ip, n + 1, k) && run.calls[k].now > cutoff;
    HistoryHoldsAll(run, limit, window, n, ip);
    AllStep(run, limit, window, ip, n);
    PickLater(run.calls, n, p, w, cutoff);
    var q, r := IsFresh(run, limit, window, ip, n + 1), IsForgotten(run, limit, window, n);
    PickSplits(run.calls, n, w, q, r);
  }

  /** A call is let through over the limit exactly when at least limit allowed calls lie in its window
      and so many of them were forgotten that fewer than limit are left. */
  lemma OverTheLimitIff(run: Run, limit: int, window: int, n: nat)
    requires ValidRun(run, limit, window) && n < |run.calls|
    ensures Allowed(run, limit, window, n) && |InItsWindow(run, n, window)| >= limit <==>
              && |InItsWindow(run, n, window)| >= limit
              && |InItsWindow(run, n, window)| - |ForgottenOf(run, limit, window, n)| < limit
  {
    AllowedExactly(run, limit, window, n);
    WindowSplits(run, limit, window, n);
  }

  /** Only a reading newer than the call's own makes the table forget what the call should count. */
  lemma ForgottenByNewer(run: Run, limit: int, window: int, n: nat, k: nat) returns (j: nat)
    requires Shaped(run) && n < |run.calls| && Forgotten(run, limit, window, n, k)
    ensures k < j < n
    ensures run.calls[j].ip == run.calls[n].ip
    ensures run.calls[j].now > run.calls[n].now
  {
    j :| k < j < n && run.calls[j].ip == run.calls[n].ip && run.calls[k].now <= run.calls[j].now - window;
  }

  /** The table has forgotten only what no window can reach that ends after every reading so far. */
  lemma TableRefinesHistory(run: Run, limit: int, window: int, n: nat, ip: string, cutoff: int)
    requires ValidRun(run, limit, window) && n <= |run.calls|
    requires forall i :: 0 <= i < n && run.calls[i].ip == ip ==> run.calls[i].now - window <= cutoff
    ensures Later(Entries(run.tables[n], ip), cutoff) == Later(Entries(run.histories[n], ip), cutoff)
  {
    TableHoldsFresh(run, limit, window, n, ip);
    HistoryHoldsAll(run, limit, window, n, ip);
    var w := (k: nat) => Standing(run, limit, window, ip, n, k) && run.calls[k].now > cutoff;
    PickLater(run.calls, n, IsStanding(run, limit, window, ip, n), w, cutoff);
    PickLater(run.calls, n, IsFresh(run, limit, window, ip, n), w, cutoff);
  }

  /** A call that is no older than any before it of its address is allowed exactly when fewer than limit
      allowed calls of the address, since the table was last emptied, fall in the window before it. */
  lemma AllowedIffUnderLimit(run: Run, limit: int, window: int, n: nat)
    requires ValidRun(run, limit, window) && n < |run.calls|
    requires forall i :: 0 <= i < n && run.calls[i].ip == run.calls[n].ip ==> run.calls[i].now <= run.calls[n].now
    ensures Allowed(run, limit, window, n) <==> |InItsWindow(run, n, window)| < limit
  {
    TableRefinesHistory(run, limit, window, n, run.calls[n].ip, run.calls[n].now - window);
  }

  // ---------------------------------------------------------------- every window

  /** Each entry was admitted with fewer than limit others in the window before it. */
  predicate Admitted(ts: seq<int>, limit: int, window: int)
  {
    ts == [] ||
    (var init, last := ts[..|ts| - 1], ts[|ts| - 1];
     Admitted(init, limit, window) && |Later(init, last - window)| < limit)
  }

  lemma {:induction false} HistoryAdmitted(run: Run, limit: int, window: int, n: nat, ip: string)
    requires ValidRun(run, limit, window) && Ordered(run.calls, ip) && n <= |run.calls|
    ensures Admitted(Entries(run.histories[n], ip), limit, window)
  {
    if n > 0 {
      HistoryAdmitted(run, limit, window, n - 1, ip);
      HistoryStep(run, limit, window, n - 1, ip);
      if run.calls[n - 1].ip == ip && Allowed(run, limit, window, n - 1) {
        AllowedIffUnderLimit(run, limit, window, n - 1);
      }
    }
  }

  /** The entries in the window that ends at x. */
  function InWindow(ts: seq<int>, x: int, window: int): seq<int>
  {
    if ts == [] then []
    else
      var rest, last := InWindow(ts[..|ts| - 1], x, window), ts[|ts| - 1];
      if x - window < last <= x then rest + [last] else rest
  }

  lemma {:induction false} InWindowBounded(ts: seq<int>, x: int, window: int, limit: int)
    requires Admitted(ts, limit, window)
    ensures |InWindow(ts, x, window)| <= if limit < 0 then 0 else limit
    ensures |InWindow(ts, x, window)| <= |Later(ts, x - window)|
  {
    if ts != [] {
      var init, last := ts[..|ts| - 1], ts[|ts| - 1];
      InWindowBounded(init, x, window, limit);
      if x - window < last <= x {
        LaterShrinks(init, last - window, x - window);
      }
    }
  }

  /** No window of the configured length ever holds more than limit allowed calls of an address whose
      readings never go back, whatever those of other addresses do. */
  lemma NoWindowExceedsLimit(run: Run, limit: int, window: int, n: nat, ip: string, x: int)
    requires ValidRun(run, limit, window) && Ordered(run.calls, ip) && n <= |run.calls|
    ensures |InWindow(Entries(run.histories[n], ip), x, window)| <= if limit < 0 then 0 else limit
  {
    HistoryAdmitted(run, limit, window, n, ip);
    InWindowBounded(Entries(run.histories[n], ip), x, window, limit);
  }

  /** Memory is bounded whatever the clock does. */
  lemma {:induction false} TableBounded(run: Run, limit: int, window: int, n: nat)
    requires ValidRun(run, limit, window) && n <= |run.calls|
    ensures |run.tables[n]| <= MAX_TRACKED + 1
    ensures forall ip :: ip in run.tables[n] ==> |run.tables[n][ip]| <= if limit < 0 then 0 else limit
  {
    if n > 0 {
      TableBounded(run, limit, window, n - 1);
      assert StepsAt(run, limit, window, n - 1);
    }
  }

  ghost function Skewed(): Run
  {
    var calls := [Call("a", 0), Call("a", 100), Call("a", 5)];
    var t1: Table, t2: Table, h2: Table := map["a" := [0]], map["a" := [100]], map["a" := [0, 100]];
    Run(calls, [map[], t1, t2, Next(t2, 2, 10, "a", 5)], [map[], t1, h2, Record(t2, h2, 2, 10, calls[2])])
  }

  lemma SkewedFirst()
    ensures StepsAt(Skewed(), 2, 10, 0)
  {
    assert Later([], -10) == [] && [] + [0] == [0];
  }

  lemma SkewedSecond()
    ensures StepsAt(Skewed(), 2, 10, 1)
  {
    var t1: Table := map["a" := [0]];
    assert |t1| == 1;
    assert [0][..0] == [] && Later([0], 90) == [];
    assert [] + [100] == [100] && [0] + [100] == [0, 100];
    assert t1["a" := [100]] == map["a" := [100]] && t1["a" := [0, 100]] == map["a" := [0, 100]];
  }

  /** Readings out of order do break the limit: the clock is read before the lock is taken, so a call
      can arrive with an older reading after a newer one has made the table forget. */
  lemma OutOfOrderReadings()
    ensures ValidRun(Skewed(), 2, 10) && !Ordered(Skewed().calls, "a")
    ensures Allowed(Skewed(), 2, 10, 2)
    ensures |InItsWindow(Skewed(), 2, 10)| == 2
  {
    var run := Skewed();
    SkewedFirst();
    SkewedSecond();
    forall n: nat
      ensures StepsAt(run, 2, 10, n)
    {
      assert n == 0 || n == 1 || n == 2 || n >= |run.calls|;
    }
    assert !(run.calls[1].now <= run.calls[2].now);
    assert |run.tables[2]| == 1;
    assert [100][..0] == [] && Later([100], -5) == [100];
    LaterAppend([0], 100, -5);
    LaterAppend([], 0, -5);
    assert [0] + [100] == [0, 100] && [] + [0] == [0];
  }
}
