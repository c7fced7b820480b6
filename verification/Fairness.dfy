/** What the process machine promises: the process tree, reaping, and round-robin waiting. */
module Fairness {
  import opened ProcTable

  // ---------- the tree ----------

  /** Following parents from a process, `n` times; it stops at proczero. */
  ghost function Ancestor(s: Sys, i: int, n: nat): int
    requires TreeOk(s) && IsIdx(i) && s.procs[i].st != Unused
    ensures IsIdx(Ancestor(s, i, n)) && s.procs[Ancestor(s, i, n)].st != Unused
    decreases n
  {
    assert ChildOk(s, i);
    if n == 0 || i == 0 then i else Ancestor(s, s.procs[i].parent, n - 1)
  }

  /** Every process descends from proczero: there are no cycles and no orphans. */
  lemma {:induction false} RootedAtProczero(s: Sys, i: int)
    requires TreeOk(s) && IsIdx(i) && s.procs[i].st != Unused
    ensures Ancestor(s, i, s.procs[i].pid) == 0
    decreases s.procs[i].pid
  {
    assert ChildOk(s, i);
    if i != 0 {
      RootedAtProczero(s, s.procs[i].parent);
      MoreSteps(s, s.procs[i].parent, s.procs[s.procs[i].parent].pid, s.procs[i].pid - 1);
    }
  }

  lemma {:induction false} MoreSteps(s: Sys, i: int, n: nat, m: nat)
    requires TreeOk(s) && IsIdx(i) && s.procs[i].st != Unused && n <= m && Ancestor(s, i, n) == 0
    ensures Ancestor(s, i, m) == 0
    decreases n
  {
    assert ChildOk(s, i);
    if i != 0 && n > 0 {
      MoreSteps(s, s.procs[i].parent, n - 1, m - 1);
    }
  }

  /** A proper ancestor is never the process itself, and it is alive. */
  lemma {:induction false} NoCycle(s: Sys, i: int, n: nat)
    requires TreeOk(s) && IsIdx(i) && s.procs[i].st != Unused && i != 0 && n > 0
    ensures Live(s.procs[Ancestor(s, i, n)]) && s.procs[Ancestor(s, i, n)].pid < s.procs[i].pid
    decreases n
  {
    assert ChildOk(s, i);
    if n > 1 && s.procs[i].parent != 0 {
      NoCycle(s, s.procs[i].parent, n - 1);
    }
  }

  // ---------- waiting and reaping ----------

  /** A parent asleep in proc_wait sleeps for a reason: it has children, and none is a zombie. */
  lemma SleepersHaveNoZombie(s: Sys, i: int, j: int)
    requires Inv(s) && IsIdx(i) && IsIdx(j) && s.procs[i].st == Sleeping && s.procs[i].chan.OnProc?
    ensures s.procs[i].chan == OnProc(i) && !ZombieOf(s.procs[j], i)
  {
  }

  /** A process that exits leaves a parent that will look: awake, or about to be scheduled. */
  lemma ExitWakesParent(s: Sys, code: int)
    requires Inv(s) && HasCpu(s) && s.cur != 0
    ensures var t := Exited(s, code); var p := s.procs[s.cur].parent;
            IsIdx(p) && |t.procs| == 64 && Live(t.procs[p]) && !InWait(t.procs[p]) && ZombieOf(t.procs[s.cur], p)
            && t.procs[s.cur].code == code
  {
    assert ChildOk(s, s.cur);
    Running1(s);
    ExitedAt(s, code, s.cur);
    ExitedAt(s, code, s.procs[s.cur].parent);
    ExitShape(s, code);
    ExitKeeps(s, code);
    hide Exited;
    var t := Exited(s, code);
    assert ExitEntry(s, t, s.procs[s.cur].parent);
    assert ChildOk(t, s.cur);
  }

  /** The statuses handed over in a run are those passed to exit, each to the parent, each once. */
  lemma ReapsTheTruth(s: Sys, k: nat)
    requires Inv(s) && k < |s.reaped|
    ensures s.reaped[k].pid in s.exits && s.reaped[k].code == s.exits[s.reaped[k].pid]
    ensures forall j :: 0 <= j < |s.reaped| && s.reaped[j].pid == s.reaped[k].pid ==> j == k
    ensures forall i :: 0 <= i < 64 && s.procs[i].st != Unused ==> s.procs[i].pid != s.reaped[k].pid
  {
  }

  /**
   * proc_wait returns exactly when there is a zombie child or no child at all,
   * and reaps only a child of the caller.
   */
  lemma WaitOutcome(s: Sys)
    requires Inv(s) && HasCpu(s)
    ensures (exists j :: 0 <= j < 64 && ZombieOf(s.procs[j], s.cur)) <==> |Waited(s).reaped| == |s.reaped| + 1
    ensures (Waited(s).cur == -1 <==> HasChild(s.procs, s.cur) && forall j :: 0 <= j < 64 ==>
            !ZombieOf(s.procs[j], s.cur))
    ensures Waited(s) == s <==> !HasChild(s.procs, s.cur)
    ensures |Waited(s).reaped| == |s.reaped| + 1 ==>
      exists j :: 0 <= j < 64 && ZombieOf(s.procs[j], s.cur) && Waited(s).procs[j] == FREE
        && Waited(s).reaped == s.reaped + [Reaped(s.procs[j].pid, s.procs[j].code, s.procs[s.cur].pid)]
  {
    var z := FirstZombie(s.procs, s.cur, 0);
    if z < 64 { assert ZombieOf(s.procs[z], s.cur); }
  }

  // ---------- round robin ----------

  lemma DistAfter(last: int, i: int, k: int)
    requires -1 <= last < 64 && IsIdx(i) && 0 <= k < Dist(last, i)
    ensures IsIdx(At(last, k)) && Dist(At(last, k), i) == Dist(last, i) - k - 1
  {
  }

  lemma LastInRange(s: Sys)
    requires Inv(s)
    ensures |s.procs| == 64 && -1 <= s.last < 64 && (s.cur == -1 || IsIdx(s.cur))
    ensures forall i {:trigger s.procs[i]} :: 0 <= i < 64 ==> (s.procs[i].st == Running <==> i == s.cur)
    ensures forall i {:trigger s.procs[i]} :: 0 <= i < 64 ==> s.procs[i].slice <= 10
  {
    hide ChildOk, WaitOk, ChanOk, PidOk, ReapedOk, ExitsOk;
  }

  /** Each pick is the first runnable process cyclically after the last one: whoever waits comes strictly nearer. */
  lemma PickComesNearer(s: Sys, j: int)
    requires Inv(s) && s.cur == -1 && IsIdx(j) && s.procs[j].st == Runnable
    ensures IsIdx(Scheduled(s).cur) && s.procs[Scheduled(s).cur].st == Runnable
    ensures Scheduled(s).cur != j ==> Dist(Scheduled(s).last, j) < Dist(s.last, j)
    ensures forall i :: IsIdx(i) && s.procs[i].st == Runnable ==> Dist(s.last, Scheduled(s).cur) <= Dist(s.last, i)
  {
    LastInRange(s);
    hide Inv, Dist, At;
    DistRange(s.last, j);
    var k := PickAt(s, 0);
    var d := Dist(s.last, j);
    assert k <= d;
    DistRange(s.last, At(s.last, k));
    AtInjective(s.last, k);
    if k < d { DistAfter(s.last, j, k); }
    forall i | IsIdx(i) && s.procs[i].st == Runnable ensures k <= Dist(s.last, i) {
      DistRange(s.last, i);
    }
  }

  lemma AtInjective(last: int, k: int)
    requires -1 <= last < 64 && 0 <= k < 64
    ensures Dist(last, At(last, k)) == k
  {
  }

  /** Ticks that may still be charged to others before `j` is picked. */
  function Bound(s: Sys, j: int): int
    requires |s.procs| == 64
  {
    10 * Dist(s.last, j) + (if IsIdx(s.cur) then s.procs[s.cur].slice else 0)
  }

  /** Is this step a tick charged to the current process? */
  function Charge(s: Sys, a: Action): int {
    if a == Tick && s.cur != -1 then 1 else 0
  }

  function Picks(s: Sys, a: Action): int {
    if a == Schedule then 1 else 0
  }

  /** A process that is runnable before and after a step was not picked, and what it has to wait for did not grow. */
  lemma WaitShrinks(s: Sys, a: Action, t: Sys, j: int)
    requires Inv(s) && Step(s, a, t) && IsIdx(j) && |t.procs| == 64
    requires s.procs[j].st == Runnable && t.procs[j].st == Runnable
    ensures Bound(t, j) + Charge(s, a) <= Bound(s, j)
    ensures Dist(t.last, j) + Picks(s, a) <= Dist(s.last, j)
  {
    LastInRange(s);
    hide Inv, Dist, At, Bound;
    match a
    case Schedule => PickShrinks(s, j);
    case Fork(memory) => SliceKept(s, a, t); TurnShrinks(s, t, j, 0);
    case Exit(code) => ExitShape(s, code); TurnShrinks(s, t, j, 0);
    case Wait => SliceKept(s, a, t); TurnShrinks(s, t, j, 0);
    case Sleep(n) => TurnShrinks(s, t, j, 0);
    case Wakeup(n) => SliceKept(s, a, t); TurnShrinks(s, t, j, 0);
    case Yield => TurnShrinks(s, t, j, 0);
    case Tick => TickShrinks(s, j);
  }

  /** Without a pick: the turn goes on with fewer ticks left, or ends. */
  lemma TurnShrinks(s: Sys, t: Sys, j: int, charge: nat)
    requires |s.procs| == 64 && |t.procs| == 64 && t.last == s.last && (t.cur == s.cur || t.cur == -1)
    requires t.cur == s.cur && IsIdx(s.cur) ==> t.procs[s.cur].slice + charge <= s.procs[s.cur].slice
    requires charge > 0 ==> IsIdx(s.cur) && charge <= s.procs[s.cur].slice
    ensures Bound(t, j) + charge <= Bound(s, j) && Dist(t.last, j) == Dist(s.last, j)
  {
    hide Dist;
  }

  lemma TickShrinks(s: Sys, j: int)
    requires Inv(s) && (s.cur == -1 || HasCpu(s)) && |s.procs| == 64
    ensures |Ticked(s).procs| == 64 && Ticked(s).last == s.last
    ensures Bound(Ticked(s), j) + Charge(s, Tick) <= Bound(s, j)
  {
    if s.cur != -1 { Running1(s); }
    hide Inv, Bound;
    TurnShrinks(s, Ticked(s), j, if s.cur != -1 then 1 else 0);
  }

  lemma PickShrinks(s: Sys, j: int)
    requires Inv(s) && s.cur == -1 && IsIdx(j) && s.procs[j].st == Runnable
    requires |Scheduled(s).procs| == 64 && Scheduled(s).procs[j].st == Runnable
    ensures Bound(Scheduled(s), j) <= Bound(s, j) && Dist(Scheduled(s).last, j) + 1 <= Dist(s.last, j)
  {
    PickComesNearer(s, j);
    LastInRange(s);
    hide Inv, Dist, At;
  }

  lemma SliceKept(s: Sys, a: Action, t: Sys)
    requires Inv(s) && Step(s, a, t) && (a.Fork? || a.Wait? || a.Wakeup?)
    ensures |t.procs| == 64 && t.last == s.last && (t.cur == s.cur || t.cur == -1)
    ensures t.cur == s.cur && IsIdx(s.cur) ==> t.procs[s.cur].slice == s.procs[s.cur].slice
  {
  }

  /** How many ticks were charged, and how many picks made, in the first `n` steps. */
  ghost function Charged(states: seq<Sys>, actions: seq<Action>, n: nat): int
    requires n <= |actions| <= |states|
  {
    if n == 0 then 0 else Charged(states, actions, n - 1) + Charge(states[n - 1], actions[n - 1])
  }

  ghost function Picked(states: seq<Sys>, actions: seq<Action>, n: nat): int
    requires n <= |actions| <= |states|
  {
    if n == 0 then 0 else Picked(states, actions, n - 1) + Picks(states[n - 1], actions[n - 1])
  }

  /** Process `j` stays runnable, that is unpicked, in the first `n` states. */
  ghost predicate StaysRunnable(states: seq<Sys>, j: int, n: nat) {
    n < |states| && forall i {:trigger states[i]} :: 0 <= i <= n ==>
        |states[i].procs| == 64 && IsIdx(j) && states[i].procs[j].st == Runnable
  }

  lemma {:induction false} WaitBudget(states: seq<Sys>, actions: seq<Action>, j: int, n: nat)
    requires Run(states, actions) && Inv(states[0]) && StaysRunnable(states, j, n)
    ensures Bound(states[n], j) + Charged(states, actions, n) <= Bound(states[0], j)
    ensures Dist(states[n].last, j) + Picked(states, actions, n) <= Dist(states[0].last, j)
  {
    hide Inv, Step, Bound, Dist, Charge, Picks;
    if n > 0 {
      WaitBudget(states, actions, j, n - 1);
      RunsAreSafe(states, actions, n - 1);
      assert Step(states[n - 1], actions[n - 1], states[n - 1 + 1]);
      WaitShrinks(states[n - 1], actions[n - 1], states[n], j);
    }
  }

  /**
   * Bounded waiting: as long as a process is runnable and not picked, fewer
   * than NPROC picks are made and fewer than NPROC * TIME_SLICE ticks are
   * charged to others.
   */
  lemma BoundedWaiting(states: seq<Sys>, actions: seq<Action>, j: int, n: nat)
    requires Run(states, actions) && Inv(states[0]) && StaysRunnable(states, j, n)
    ensures Picked(states, actions, n) < 64
    ensures Charged(states, actions, n) < 640
  {
    WaitBudget(states, actions, j, n);
    RunsAreSafe(states, actions, n);
    StartBound(states[0], j);
    StartBound(states[n], j);
  }

  lemma StartBound(s: Sys, j: int)
    requires Inv(s) && IsIdx(j) && s.procs[j].st == Runnable
    ensures 0 <= Dist(s.last, j) < 64 && 0 <= Bound(s, j) < 640
  {
    DistRange(s.last, j);
  }

  /** Only being picked ends a runnable process's wait. */
  lemma OnlyPickingEndsWaiting(s: Sys, a: Action, t: Sys, j: int)
    requires Inv(s) && Step(s, a, t) && IsIdx(j) && s.procs[j].st == Runnable
    ensures |t.procs| == 64
    ensures t.procs[j].st != Runnable ==>
            a == Schedule && t.cur == j && t.procs[j].st == Running && t.procs[j].slice == 10
  {
    LastInRange(s);
    match a
    case Fork(memory) => ForkLeaves(s, memory, j);
    case Exit(code) => ExitLeaves(s, code, j);
    case Wait => WaitLeaves(s, j);
    case Wakeup(n) => WokenAt(s.procs, s.cur, OnOther(n), j);
    case _ => hide Inv;
  }

  lemma ForkLeaves(s: Sys, memory: bool, j: int)
    requires HasCpu(s) && IsIdx(j) && s.procs[j].st == Runnable
    ensures |Forked(s, memory).procs| == 64 && Forked(s, memory).procs[j].st == Runnable
  {
  }

  lemma ExitLeaves(s: Sys, code: int, j: int)
    requires Inv(s) && HasCpu(s) && s.cur != 0 && IsIdx(j) && s.procs[j].st == Runnable
    ensures |Exited(s, code).procs| == 64 && Exited(s, code).procs[j].st == Runnable
  {
    hide WaitOk, ChanOk, PidOk, ReapedOk, ExitsOk, Exited;
    Running1(s);
    assert ChildOk(s, s.cur);
    ExitedAt(s, code, j);
    ExitShape(s, code);
  }

  lemma WaitLeaves(s: Sys, j: int)
    requires HasCpu(s) && s.procs[s.cur].st == Running && IsIdx(j) && s.procs[j].st == Runnable
    ensures |Waited(s).procs| == 64 && Waited(s).procs[j].st == Runnable
  {
  }

  // ---------- sleeping on anything else ----------

  ghost predicate SleepsOn(s: Sys, c: int, n: nat) {
    |s.procs| == 64 && IsIdx(c) && s.procs[c].st == Sleeping && s.procs[c].chan == OnOther(n)
  }

  /** Only a wakeup of its own channel moves a sleeper. */
  lemma SleeperStays(s: Sys, a: Action, t: Sys, c: int, n: nat)
    requires Inv(s) && Step(s, a, t) && SleepsOn(s, c, n) && a != Wakeup(n)
    ensures SleepsOn(t, c, n)
  {
    LastInRange(s);
    match a
    case Exit(code) => ExitSleeper(s, code, c, n);
    case Wakeup(m) => WokenAt(s.procs, s.cur, OnOther(m), c);
    case _ => hide Inv;
  }

  lemma ExitSleeper(s: Sys, code: int, c: int, n: nat)
    requires Inv(s) && HasCpu(s) && s.cur != 0 && SleepsOn(s, c, n)
    ensures SleepsOn(Exited(s, code), c, n)
  {
    hide WaitOk, ChanOk, PidOk, ReapedOk, ExitsOk, Exited;
    Running1(s);
    assert ChildOk(s, s.cur);
    ExitedAt(s, code, c);
    ExitShape(s, code);
  }

  lemma {:induction false} StillAsleep(states: seq<Sys>, actions: seq<Action>, i: nat, k: nat, n: nat)
    requires Run(states, actions) && Inv(states[0]) && i < k < |states| && actions[i] == Sleep(n)
    requires forall j :: i < j < k ==> actions[j] != Wakeup(n)
    ensures SleepsOn(states[k], states[i].cur, n)
  {
    hide Inv, SleepsOn, Step;
    assert Step(states[k - 1], actions[k - 1], states[k - 1 + 1]);
    RunsAreSafe(states, actions, k - 1);
    if k == i + 1 {
      assert SleepsOn(states[k], states[i].cur, n) by { FallsAsleep(states[i], states[k], n); }
    } else {
      StillAsleep(states, actions, i, k - 1, n);
      SleeperStays(states[k - 1], actions[k - 1], states[k], states[i].cur, n);
    }
  }

  lemma FallsAsleep(s: Sys, t: Sys, n: nat)
    requires Step(s, Sleep(n), t)
    ensures SleepsOn(t, s.cur, n)
  {
  }

  /** A process that goes to sleep on a channel is runnable after the next wakeup of that channel. */
  lemma SleeperWakes(states: seq<Sys>, actions: seq<Action>, i: nat, k: nat, n: nat)
    requires Run(states, actions) && Inv(states[0]) && i < k < |actions|
    requires actions[i] == Sleep(n) && actions[k] == Wakeup(n) && forall j :: i < j < k ==> actions[j] != Wakeup(n)
    ensures var c := states[i].cur; |states[k + 1].procs| == 64 && IsIdx(c) && states[k + 1].procs[c].st == Runnable
  {
    StillAsleep(states, actions, i, k, n);
    RunsAreSafe(states, actions, k);
    LastInRange(states[k]);
    hide Inv, Run;
    assert Step(states[k], actions[k], states[k + 1]) by { assert Run(states, actions); }
    WokenAt(states[k].procs, states[k].cur, OnOther(n), states[i].cur);
  }

  // ---------- the time slice ----------

  /** A step in which the current process neither exits nor waits, sleeps or yields. */
  predicate KeepsCpu(a: Action) {
    a.Fork? || a.Wakeup? || a.Tick?
  }

  /** Process `c` runs with `left` ticks of its turn. */
  ghost predicate OnTurn(s: Sys, c: int, left: int) {
    |s.procs| == 64 && IsIdx(c) && s.cur == c && s.procs[c].st == Running && s.procs[c].slice == left
  }

  lemma TurnStep(s: Sys, a: Action, t: Sys, c: int, left: int)
    requires Inv(s) && Step(s, a, t) && OnTurn(s, c, left) && KeepsCpu(a) && left >= 1
    ensures a != Tick ==> OnTurn(t, c, left)
    ensures a == Tick && left > 1 ==> OnTurn(t, c, left - 1)
    ensures a == Tick && left == 1 ==> |t.procs| == 64 && t.cur == -1 && t.procs[c].st == Runnable
  {
    LastInRange(s);
    hide Inv;
    match a
    case Wakeup(n) => WokenAt(s.procs, s.cur, OnOther(n), c);
    case _ =>
  }

  lemma {:induction false} TurnGoesOn(states: seq<Sys>, actions: seq<Action>, i: nat, k: nat)
    requires Run(states, actions) && Inv(states[0]) && i < k < |states|
    requires actions[i] == Schedule && IsIdx(states[i + 1].cur)
    requires forall j :: i < j < k ==> KeepsCpu(actions[j])
    requires Charged(states, actions, k) - Charged(states, actions, i + 1) < 10
    ensures OnTurn(states[k], states[i + 1].cur, 10 - (Charged(states, actions, k) - Charged(states, actions, i + 1)))
    ensures Charged(states, actions, k) >= Charged(states, actions, i + 1)
  {
    hide Inv, Step, OnTurn, Charge;
    assert Step(states[k - 1], actions[k - 1], states[k - 1 + 1]);
    RunsAreSafe(states, actions, k - 1);
    if k == i + 1 {
      Picked1(states[i], states[k]);
    } else {
      ChargeIs(states[k - 1], actions[k - 1]);
      TurnGoesOn(states, actions, i, k - 1);
      var left := 10 - (Charged(states, actions, k - 1) - Charged(states, actions, i + 1));
      OnCpu(states[k - 1], states[i + 1].cur, left);
      TurnStep(states[k - 1], actions[k - 1], states[k], states[i + 1].cur, left);
    }
  }

  lemma ChargeIs(s: Sys, a: Action)
    ensures Charge(s, a) == 0 || Charge(s, a) == 1
    ensures a != Tick ==> Charge(s, a) == 0
    ensures a == Tick && s.cur != -1 ==> Charge(s, a) == 1
  {
  }

  lemma OnCpu(s: Sys, c: int, left: int)
    requires OnTurn(s, c, left)
    ensures s.cur != -1
  {
  }

  lemma Picked1(s: Sys, t: Sys)
    requires Inv(s) && Step(s, Schedule, t) && IsIdx(t.cur)
    ensures OnTurn(t, t.cur, 10)
  {
    hide Inv, At, PickAt;
  }

  /**
   * A turn is ten ticks: a picked process that does not give up the CPU runs
   * until the tenth tick after the pick, and is runnable then.
   */
  lemma FullTurn(states: seq<Sys>, actions: seq<Action>, i: nat, k: nat)
    requires Run(states, actions) && Inv(states[0]) && i < k < |actions|
    requires actions[i] == Schedule && IsIdx(states[i + 1].cur)
    requires forall j :: i < j < k ==> KeepsCpu(actions[j])
    requires Charged(states, actions, k) - Charged(states, actions, i + 1) == 9 && actions[k] == Tick
    ensures var c := states[i + 1].cur;
      && states[k].cur == c && |states[k].procs| == 64 && states[k].procs[c].st == Running
      && states[k + 1].cur == -1 && |states[k + 1].procs| == 64 && states[k + 1].procs[c].st == Runnable
  {
    TurnGoesOn(states, actions, i, k);
    RunsAreSafe(states, actions, k);
    hide Inv, Step;
    assert Step(states[k], actions[k], states[k + 1]);
    TurnStep(states[k], actions[k], states[k + 1], states[i + 1].cur, 1);
  }
}
