/**
 * The process table of kernel/proc/proc.c with the tick handlers of
 * kernel/trap, as a machine for one CPU. Kernel sections run with interrupts
 * off, so each system call up to its switch is one step.
 */
module ProcTable {

  datatype PState = Unused | Runnable | Running | Sleeping | Zombie

  /** What a process sleeps on: nothing, a process (its own entry, in proc_wait), or some other address. */
  datatype Chan = NoChan | OnProc(i: int) | OnOther(n: nat)

  datatype Proc = Proc(st: PState, pid: nat, parent: int, code: int, chan: Chan, slice: nat, total: nat)

  /** History: a status that proc_wait handed over, and the pid of the process that got it. */
  datatype Reaped = Reaped(pid: nat, code: int, to: nat)

  /** `cur` and a process's `parent` are indices into the table, -1 for none; `last` is last_scheduled. */
  datatype Sys = Sys(procs: seq<Proc>, cur: int, last: int, nextPid: nat, reaped: seq<Reaped>,
                     exits: map<nat, int>)

  const FREE: Proc := Proc(Unused, 0, -1, 0, NoChan, 10, 0)

  predicate IsIdx(i: int) { 0 <= i < 64 }

  // ---------- the invariant ----------

  predicate Live(p: Proc) {
    p.st != Unused && p.st != Zombie
  }

  /** An unused entry has no parent; every other one, proczero apart, has a live parent with a smaller pid. */
  ghost predicate ChildOk(s: Sys, i: int)
    requires |s.procs| == 64 && IsIdx(i)
  {
    && (s.procs[i].st == Unused ==> s.procs[i].parent == -1)
    && (s.procs[i].st != Unused && i != 0 ==>
          IsIdx(s.procs[i].parent) && Live(s.procs[s.procs[i].parent])
              && s.procs[s.procs[i].parent].pid < s.procs[i].pid)
  }

  /** Slot 0 is proczero and lives for ever. */
  ghost predicate TreeOk(s: Sys) {
    |s.procs| == 64 && Live(s.procs[0]) && s.procs[0].parent == -1 && forall i :: IsIdx(i) ==> ChildOk(s, i)
  }

  /** Asleep in proc_wait. */
  predicate InWait(p: Proc) {
    p.st == Sleeping && p.chan.OnProc?
  }

  predicate ZombieOf(p: Proc, parent: int) {
    p.parent == parent && p.st == Zombie
  }

  /** No lost wakeup: a process asleep in proc_wait has no child waiting to be reaped. */
  ghost predicate WaitOk(s: Sys)
    requires |s.procs| == 64
  {
    forall i, j :: 0 <= i < 64 && 0 <= j < 64 && InWait(s.procs[i]) ==> !ZombieOf(s.procs[j], i)
  }

  /** Processes only ever sleep on their own entry. */
  ghost predicate ChanOk(s: Sys)
    requires |s.procs| == 64
  {
    forall i {:trigger s.procs[i]} :: 0 <= i < 64 && s.procs[i].chan.OnProc? ==> s.procs[i].chan == OnProc(i)
  }

  ghost predicate PidOk(s: Sys)
    requires |s.procs| == 64
  {
    && (forall i, j :: 0 <= i < j < 64 && s.procs[i].st != Unused && s.procs[j].st != Unused ==>
        s.procs[i].pid != s.procs[j].pid)
    && (forall i {:trigger s.procs[i]} :: 0 <= i < 64 && s.procs[i].st != Unused ==> s.procs[i].pid < s.nextPid)
  }

  /** The one CPU: exactly the current process is running, with ticks left. */
  ghost predicate CpuOk(s: Sys)
    requires |s.procs| == 64
  {
    && (s.cur == -1 || IsIdx(s.cur)) && (s.cur != -1 ==> s.last == s.cur) && -1 <= s.last < 64
    && forall i {:trigger s.procs[i]} :: 0 <= i < 64 ==>
      (s.procs[i].st == Running <==> i == s.cur) && s.procs[i].slice <= 10
          && (s.procs[i].st == Running ==> 1 <= s.procs[i].slice)
  }

  /** A pid is reaped at most once, and not while it is in the table. */
  ghost predicate ReapedOk(s: Sys)
    requires |s.procs| == 64
  {
    && (forall i, j :: 0 <= i < j < |s.reaped| ==> s.reaped[i].pid != s.reaped[j].pid)
    && (forall k {:trigger s.reaped[k]} :: 0 <= k < |s.reaped| ==> s.reaped[k].pid < s.nextPid)
    && (forall i, k :: 0 <= i < 64 && 0 <= k < |s.reaped| && s.procs[i].st != Unused ==>
        s.procs[i].pid != s.reaped[k].pid)
  }

  /** `exits` is what each pid passed to exit: zombies and reaped statuses agree with it. */
  ghost predicate ExitsOk(s: Sys)
    requires |s.procs| == 64
  {
    && (forall n: nat :: n in s.exits ==> n < s.nextPid)
    && (forall i {:trigger s.procs[i]} :: 0 <= i < 64 && Live(s.procs[i]) ==> s.procs[i].pid !in s.exits)
    && (forall i {:trigger s.procs[i]} :: 0 <= i < 64 && s.procs[i].st == Zombie ==>
          s.procs[i].pid in s.exits && s.exits[s.procs[i].pid] == s.procs[i].code)
    && (forall k {:trigger s.reaped[k]} :: 0 <= k < |s.reaped| ==>
          s.reaped[k].pid in s.exits && s.exits[s.reaped[k].pid] == s.reaped[k].code)
  }

  ghost predicate Inv(s: Sys) {
    TreeOk(s) && WaitOk(s) && ChanOk(s) && PidOk(s) && CpuOk(s) && ReapedOk(s) && ExitsOk(s)
  }

  // ---------- what the operations do ----------

  function WokenOne(p: Proc, i: int, cur: int, chan: Chan): Proc {
    if i != cur && p.st == Sleeping && p.chan == chan then p.(st := Runnable) else p
  }

  /** proc_wakeup */
  function Woken(procs: seq<Proc>, cur: int, chan: Chan): (r: seq<Proc>)
    ensures |r| == |procs|
  {
    seq(|procs|, (i: int) requires 0 <= i < |procs| => WokenOne(procs[i], i, cur, chan))
  }

  predicate HasChild(procs: seq<Proc>, i: int) {
    exists j :: 0 <= j < |procs| && procs[j].parent == i
  }

  function Adopted(procs: seq<Proc>, i: int): (r: seq<Proc>)
    ensures |r| == |procs|
  {
    seq(|procs|, (j: int) requires 0 <= j < |procs| => if procs[j].parent == i then procs[j].(parent := 0)
        else procs[j])
  }

  /** proc_reparent: the children of `i` become proczero's, which is woken if there is one. */
  function Reparented(procs: seq<Proc>, cur: int, i: int): (r: seq<Proc>)
    ensures |r| == |procs|
  {
    if HasChild(procs, i) then Woken(Adopted(procs, i), cur, OnProc(0)) else procs
  }

  /** The first slot that satisfies `f`, or |procs|. */
  function FirstUnused(procs: seq<Proc>, from: nat): (r: nat)
    requires from <= |procs|
    ensures from <= r <= |procs|
    ensures r < |procs| ==> procs[r].st == Unused
    ensures forall j :: from <= j < r ==> procs[j].st != Unused
    decreases |procs| - from
  {
    if from == |procs| || procs[from].st == Unused then from else FirstUnused(procs, from + 1)
  }

  function FirstZombie(procs: seq<Proc>, parent: int, from: nat): (r: nat)
    requires from <= |procs|
    ensures from <= r <= |procs|
    ensures r < |procs| ==> ZombieOf(procs[r], parent)
    ensures forall j :: from <= j < r ==> !ZombieOf(procs[j], parent)
    decreases |procs| - from
  {
    if from == |procs| || ZombieOf(procs[from], parent) then from else FirstZombie(procs, parent, from + 1)
  }

  ghost predicate HasCpu(s: Sys) {
    |s.procs| == 64 && IsIdx(s.cur)
  }

  /** proc_fork: without a free slot nothing happens; without memory only a pid is used up. */
  ghost function Forked(s: Sys, memory: bool): Sys
    requires HasCpu(s)
  {
    var c := FirstUnused(s.procs, 0);
    if c == 64 then s
    else if !memory then s.(procs := s.procs[c := FREE], nextPid := s.nextPid + 1)
    else s.(procs := s.procs[c := Proc(Runnable, s.nextPid, s.cur, s.procs[c].code, s.procs[c].chan, 10, 0)],
            nextPid := s.nextPid + 1)
  }

  /** proc_exit, up to the switch to the scheduler. */
  ghost function Exited(s: Sys, code: int): Sys
    requires HasCpu(s) && s.cur != 0
  {
    var ps := Reparented(s.procs, s.cur, s.cur);
    var qs := Woken(ps, s.cur, OnProc(ps[s.cur].parent));
    s.(procs := qs[s.cur := qs[s.cur].(code := code, st := Zombie)], cur := -1,
        exits := s.exits[s.procs[s.cur].pid := code])
  }

  /** One scan of proc_wait: the first zombie child is reaped; with only other children the caller sleeps. */
  ghost function Waited(s: Sys): Sys
    requires HasCpu(s)
  {
    var z := FirstZombie(s.procs, s.cur, 0);
    if z < 64 then s.(procs := s.procs[z := FREE],
        reaped := s.reaped + [Reaped(s.procs[z].pid, s.procs[z].code, s.procs[s.cur].pid)])
    else if HasChild(s.procs, s.cur) then Slept(s, OnProc(s.cur))
    else s
  }

  /** proc_sleep, up to the switch. */
  ghost function Slept(s: Sys, chan: Chan): Sys
    requires HasCpu(s)
  {
    s.(procs := s.procs[s.cur := s.procs[s.cur].(chan := chan, st := Sleeping)], cur := -1)
  }

  ghost function Yielded(s: Sys): Sys
    requires HasCpu(s)
  {
    s.(procs := s.procs[s.cur := s.procs[s.cur].(st := Runnable)], cur := -1)
  }

  /** A timer interrupt with the checks at the end of the trap handlers. */
  ghost function Ticked(s: Sys): Sys
    requires s.cur == -1 || HasCpu(s)
  {
    if s.cur == -1 then s
    else
      var p := s.procs[s.cur];
      var q := p.(total := p.total + 1, slice := if p.slice > 0 then p.slice - 1 else 0);
      if q.slice == 0 then s.(procs := s.procs[s.cur := q.(slice := 10, st := Runnable)], cur := -1)
      else s.(procs := s.procs[s.cur := q])
  }

  /** Distance of a slot after the last one scheduled, cyclically. */
  function Dist(last: int, i: int): int {
    (i - last - 1) % 64
  }

  function At(last: int, k: int): int {
    (last + 1 + k) % 64
  }

  lemma DistRange(last: int, i: int)
    requires -1 <= last < 64 && IsIdx(i)
    ensures 0 <= Dist(last, i) < 64 && At(last, Dist(last, i)) == i
    ensures Dist(last, i) == 63 <==> (last == i || (last == -1 && i == 63))
  {
  }

  /** How far the scheduler's scan goes: to the first runnable process, or 64. */
  function PickAt(s: Sys, k: nat): (r: nat)
    requires |s.procs| == 64 && k <= 64
    ensures k <= r <= 64
    ensures r < 64 ==> IsIdx(At(s.last, r)) && s.procs[At(s.last, r)].st == Runnable
    ensures forall j :: k <= j < r ==> s.procs[At(s.last, j)].st != Runnable
    decreases 64 - k
  {
    if k == 64 || s.procs[At(s.last, k)].st == Runnable then k else PickAt(s, k + 1)
  }

  /** The scheduler's choice; a process that resumes in proc_sleep clears its channel first thing. */
  ghost function Scheduled(s: Sys): Sys
    requires |s.procs| == 64
  {
    var k := PickAt(s, 0);
    if k == 64 then s
    else
      var i := At(s.last, k);
      s.(procs := s.procs[i := s.procs[i].(st := Running, slice := 10, chan := NoChan)], cur := i, last := i)
  }

  // ---------- every operation keeps the invariant ----------

  lemma WokenAt(procs: seq<Proc>, cur: int, chan: Chan, i: int)
    requires 0 <= i < |procs|
    ensures Woken(procs, cur, chan)[i] == WokenOne(procs[i], i, cur, chan)
  {
  }

  /** An unused entry becomes a child of the current process, or is left unused. */
  ghost predicate Forks(s: Sys, t: Sys, c: int) {
    && HasCpu(s) && IsIdx(c) && s.procs[c].st == Unused && |t.procs| == 64 && t.procs == s.procs[c := t.procs[c]]
    && (t.procs[c] == FREE
        || (t.procs[c].st == Runnable && t.procs[c].pid == s.nextPid && t.procs[c].parent == s.cur
            && t.procs[c].chan == s.procs[c].chan && t.procs[c].slice == 10))
    && t.cur == s.cur && t.last == s.last && t.nextPid == s.nextPid + 1 && t.reaped == s.reaped && t.exits == s.exits
  }

  lemma ForkTree(s: Sys, t: Sys, c: int)
    requires Forks(s, t, c) && TreeOk(s) && WaitOk(s) && ChanOk(s) && PidOk(s) && CpuOk(s)
    ensures TreeOk(t) && WaitOk(t) && ChanOk(t) && CpuOk(t)
  {
    NoChildren(s, c);
    forall i | IsIdx(i) ensures ChildOk(t, i) {
      assert ChildOk(s, i);
    }
  }

  lemma ForkPids(s: Sys, t: Sys, c: int)
    requires Forks(s, t, c) && PidOk(s) && ReapedOk(s) && ExitsOk(s)
    ensures PidOk(t) && ReapedOk(t) && ExitsOk(t)
  {
  }

  lemma ForkKeeps(s: Sys, memory: bool)
    requires Inv(s) && HasCpu(s)
    ensures Inv(Forked(s, memory))
  {
    hide TreeOk, WaitOk, ChanOk, PidOk, CpuOk, ReapedOk, ExitsOk;
    var c, t := FirstUnused(s.procs, 0), Forked(s, memory);
    if c < 64 {
      assert Forks(s, t, c);
      ForkTree(s, t, c);
      ForkPids(s, t, c);
    }
  }

  /** An unused or zombie entry is nobody's parent. */
  lemma NoChildren(s: Sys, i: int)
    requires TreeOk(s) && IsIdx(i) && !Live(s.procs[i])
    ensures i != 0 && forall j :: 0 <= j < 64 ==> s.procs[j].parent != i
  {
    forall j | 0 <= j < 64 ensures s.procs[j].parent != i {
      assert ChildOk(s, j);
    }
  }

  /** A live process changes, but not its pid, its parent or its being alive. */
  ghost predicate LiveChange(s: Sys, t: Sys, i: int) {
    && |s.procs| == 64 && |t.procs| == 64 && IsIdx(i) && t.procs == s.procs[i := t.procs[i]]
    && Live(s.procs[i]) && Live(t.procs[i]) && t.procs[i].pid == s.procs[i].pid
        && t.procs[i].parent == s.procs[i].parent
    && t.nextPid == s.nextPid && t.reaped == s.reaped && t.exits == s.exits
  }

  lemma LiveChangeTree(s: Sys, t: Sys, i: int)
    requires LiveChange(s, t, i) && TreeOk(s)
    ensures TreeOk(t)
  {
    forall j | IsIdx(j) ensures ChildOk(t, j) {
      assert ChildOk(s, j);
    }
  }

  lemma LiveChangePids(s: Sys, t: Sys, i: int)
    requires LiveChange(s, t, i) && PidOk(s) && ReapedOk(s) && ExitsOk(s)
    ensures PidOk(t) && ReapedOk(t) && ExitsOk(t)
  {
  }

  lemma LiveChangeKeeps(s: Sys, t: Sys, i: int)
    requires LiveChange(s, t, i) && TreeOk(s) && PidOk(s) && ReapedOk(s) && ExitsOk(s)
    ensures TreeOk(t) && PidOk(t) && ReapedOk(t) && ExitsOk(t)
  {
    hide TreeOk, PidOk, ReapedOk, ExitsOk;
    LiveChangeTree(s, t, i);
    LiveChangePids(s, t, i);
  }

  lemma LiveChangeWaits(s: Sys, t: Sys, i: int)
    requires LiveChange(s, t, i) && WaitOk(s) && ChanOk(s)
    requires InWait(t.procs[i]) ==> InWait(s.procs[i]) || forall j :: 0 <= j < 64 ==> !ZombieOf(s.procs[j], i)
    requires t.procs[i].chan.OnProc? ==> t.procs[i].chan == OnProc(i)
    ensures WaitOk(t) && ChanOk(t)
  {
  }

  lemma LeaveCpu(s: Sys, t: Sys)
    requires HasCpu(s) && CpuOk(s) && LiveChange(s, t, s.cur) && t.cur == -1 && t.last == s.last
    requires t.procs[s.cur].st != Running && t.procs[s.cur].slice <= 10
    ensures CpuOk(t)
  {
  }

  lemma Running1(s: Sys)
    requires HasCpu(s) && CpuOk(s)
    ensures s.procs[s.cur].st == Running && 1 <= s.procs[s.cur].slice <= 10
  {
  }

  lemma SleepKeeps(s: Sys, chan: Chan)
    requires Inv(s) && HasCpu(s)
    requires chan.OnProc? ==> chan == OnProc(s.cur) && forall j :: 0 <= j < 64 ==> !ZombieOf(s.procs[j], s.cur)
    ensures Inv(Slept(s, chan))
  {
    hide TreeOk, WaitOk, ChanOk, PidOk, CpuOk, ReapedOk, ExitsOk;
    var t := Slept(s, chan);
    Running1(s);
    LiveChangeKeeps(s, t, s.cur);
    LiveChangeWaits(s, t, s.cur);
    LeaveCpu(s, t);
  }

  /** Zombie `z`, which has no children, is reaped. */
  ghost predicate Reaps(s: Sys, t: Sys, z: int, to: nat) {
    && |s.procs| == 64 && IsIdx(z) && s.procs[z].st == Zombie && t.procs == s.procs[z := FREE]
    && (forall j :: 0 <= j < 64 ==> s.procs[j].parent != z) && z != 0
    && t.reaped == s.reaped + [Reaped(s.procs[z].pid, s.procs[z].code, to)]
    && t.cur == s.cur && t.last == s.last && t.nextPid == s.nextPid && t.exits == s.exits
  }

  lemma ReapTree(s: Sys, t: Sys, z: int, to: nat)
    requires Reaps(s, t, z, to) && TreeOk(s)
    ensures TreeOk(t)
  {
    forall i | IsIdx(i) ensures ChildOk(t, i) {
      assert ChildOk(s, i);
    }
  }

  lemma ReapWaits(s: Sys, t: Sys, z: int, to: nat)
    requires Reaps(s, t, z, to) && WaitOk(s) && ChanOk(s) && CpuOk(s)
    ensures WaitOk(t) && ChanOk(t) && CpuOk(t)
  {
  }

  lemma ReapPids(s: Sys, t: Sys, z: int, to: nat)
    requires Reaps(s, t, z, to) && PidOk(s) && ReapedOk(s)
    ensures PidOk(t) && ReapedOk(t)
  {
    var n := |s.reaped|;
    forall i, k | 0 <= i < 64 && 0 <= k < |t.reaped| && t.procs[i].st != Unused
      ensures t.procs[i].pid != t.reaped[k].pid
    {
      if k == n { assert i != z && t.reaped[k].pid == s.procs[z].pid; } else { assert t.reaped[k] == s.reaped[k]; }
    }
    forall k {:trigger t.reaped[k]} | 0 <= k < |t.reaped|
      ensures t.reaped[k].pid < t.nextPid && (k < n ==> t.reaped[k].pid != t.reaped[n].pid)
    {
      if k < n { assert t.reaped[k] == s.reaped[k]; }
    }
  }

  lemma ReapExits(s: Sys, t: Sys, z: int, to: nat)
    requires Reaps(s, t, z, to) && ExitsOk(s)
    ensures ExitsOk(t)
  {
    forall k {:trigger t.reaped[k]} | 0 <= k < |t.reaped|
      ensures t.reaped[k].pid in t.exits && t.exits[t.reaped[k].pid] == t.reaped[k].code
    {
      if k < |s.reaped| { assert t.reaped[k] == s.reaped[k]; }
    }
  }

  lemma WaitKeeps(s: Sys)
    requires Inv(s) && HasCpu(s)
    ensures Inv(Waited(s))
  {
    hide TreeOk, WaitOk, ChanOk, PidOk, CpuOk, ReapedOk, ExitsOk;
    var z := FirstZombie(s.procs, s.cur, 0);
    var t := Waited(s);
    if z < 64 {
      NoChildren(s, z);
      var to := s.procs[s.cur].pid;
      assert Reaps(s, t, z, to);
      hide Reaps, FirstZombie;
      ReapTree(s, t, z, to);
      ReapWaits(s, t, z, to);
      ReapPids(s, t, z, to);
      ReapExits(s, t, z, to);
    } else if HasChild(s.procs, s.cur) {
      SleepKeeps(s, OnProc(s.cur));
    }
  }

  lemma YieldKeeps(s: Sys)
    requires Inv(s) && HasCpu(s)
    ensures Inv(Yielded(s))
  {
    hide TreeOk, WaitOk, PidOk, CpuOk, ReapedOk, ExitsOk;
    var t := Yielded(s);
    Running1(s);
    LiveChangeKeeps(s, t, s.cur);
    LiveChangeWaits(s, t, s.cur);
    LeaveCpu(s, t);
  }

  lemma StayOnCpu(s: Sys, t: Sys)
    requires HasCpu(s) && CpuOk(s) && LiveChange(s, t, s.cur) && t.cur == s.cur && t.last == s.last
    requires t.procs[s.cur].st == Running && 1 <= t.procs[s.cur].slice <= 10
    ensures CpuOk(t)
  {
  }

  lemma TickKeeps(s: Sys)
    requires Inv(s)
    ensures Inv(Ticked(s))
  {
    if s.cur != -1 {
      assert HasCpu(s);
      hide TreeOk, WaitOk, PidOk, CpuOk, ReapedOk, ExitsOk;
      var t := Ticked(s);
      Running1(s);
      LiveChangeKeeps(s, t, s.cur);
      LiveChangeWaits(s, t, s.cur);
      if t.cur == -1 { LeaveCpu(s, t); } else { StayOnCpu(s, t); }
    }
  }

  lemma TakeCpu(s: Sys, t: Sys, i: int)
    requires LiveChange(s, t, i) && s.cur == -1 && CpuOk(s) && t.cur == i && t.last == i
    requires t.procs[i].st == Running && t.procs[i].slice == 10
    ensures CpuOk(t)
  {
  }

  lemma ScheduleKeeps(s: Sys)
    requires Inv(s) && s.cur == -1
    ensures Inv(Scheduled(s))
  {
    assert |s.procs| == 64 by { assert TreeOk(s); }
    hide TreeOk, WaitOk, ChanOk, PidOk, CpuOk, ReapedOk, ExitsOk, At;
    var t := Scheduled(s);
    if PickAt(s, 0) < 64 {
      LiveChangeKeeps(s, t, t.cur);
      LiveChangeWaits(s, t, t.cur);
      TakeCpu(s, t, t.cur);
    }
  }

  // ---------- exit ----------

  lemma ReparentedAt(procs: seq<Proc>, cur: int, i: int, j: int)
    requires 0 <= j < |procs|
    ensures Reparented(procs, cur, i)[j].parent == (if procs[j].parent == i then 0 else procs[j].parent)
    ensures Reparented(procs, cur, i)[j] == procs[j].(parent := if procs[j].parent == i then 0 else procs[j].parent,
                                                       st := Reparented(procs, cur, i)[j].st)
    ensures Reparented(procs, cur, i)[j].st
            == if HasChild(procs, i) && j != cur && procs[j].st == Sleeping && procs[j].chan == OnProc(0) then Runnable
               else procs[j].st
  {
  }

  /** What exit leaves of one entry. */
  ghost predicate ExitEntry(s: Sys, t: Sys, j: int)
    requires |s.procs| == 64 && |t.procs| == 64 && IsIdx(j) && IsIdx(s.cur)
  {
    var p, q := s.procs[j], t.procs[j];
    && q == p.(parent := if p.parent == s.cur then 0 else p.parent, st := q.st, code := q.code)
    && (j == s.cur ==> q.st == Zombie)
    && (j != s.cur ==> q.code == p.code)
    && (j != s.cur ==>
        q.st == if p.st == Sleeping && (p.chan == OnProc(s.procs[s.cur].parent)
                                        || (p.chan == OnProc(0) && HasChild(s.procs, s.cur)))
                then Runnable else p.st)
  }

  lemma ExitedAt(s: Sys, code: int, j: int)
    requires HasCpu(s) && s.cur != 0 && s.procs[s.cur].parent != s.cur && s.procs[s.cur].st == Running && IsIdx(j)
    ensures |Exited(s, code).procs| == 64 && ExitEntry(s, Exited(s, code), j)
  {
    var ps := Reparented(s.procs, s.cur, s.cur);
    ReparentedAt(s.procs, s.cur, s.cur, j);
    ReparentedAt(s.procs, s.cur, s.cur, s.cur);
    hide Reparented, HasChild;
  }

  ghost predicate Exits(s: Sys, t: Sys, code: int) {
    && HasCpu(s) && |t.procs| == 64 && s.cur != 0 && t.cur == -1 && t.last == s.last && t.nextPid == s.nextPid
        && t.reaped == s.reaped
    && s.procs[s.cur].st == Running && t.procs[s.cur].code == code && t.exits == s.exits[s.procs[s.cur].pid := code]
    && forall j {:trigger t.procs[j]} :: 0 <= j < 64 ==> ExitEntry(s, t, j)
  }

  lemma ExitTree(s: Sys, t: Sys, code: int)
    requires Exits(s, t, code) && TreeOk(s)
    ensures TreeOk(t)
  {
    assert ChildOk(s, s.cur);
    assert ExitEntry(s, t, 0);
    forall i | IsIdx(i) ensures ChildOk(t, i) {
      assert ChildOk(s, i) && ExitEntry(s, t, i);
      if s.procs[i].st != Unused && i != 0 {
        assert ExitEntry(s, t, t.procs[i].parent);
        ProczeroFirst(s, i);
      }
    }
  }

  lemma ExitWaits(s: Sys, t: Sys, code: int)
    requires Exits(s, t, code) && TreeOk(s) && WaitOk(s) && ChanOk(s)
    ensures WaitOk(t) && ChanOk(t)
  {
    assert ChildOk(s, s.cur);
    forall i, j | 0 <= i < 64 && 0 <= j < 64 && InWait(t.procs[i]) ensures !ZombieOf(t.procs[j], i) {
      assert ChildOk(s, j) && ExitEntry(s, t, i) && ExitEntry(s, t, j);
      ExitWait(s, t, i, j);
    }
    forall i | 0 <= i < 64 && t.procs[i].chan.OnProc? ensures t.procs[i].chan == OnProc(i) {
      assert ExitEntry(s, t, i);
    }
  }

  lemma ExitWait(s: Sys, t: Sys, i: int, j: int)
    requires HasCpu(s) && |t.procs| == 64 && IsIdx(i) && IsIdx(j) && s.procs[s.cur].st == Running
    requires ExitEntry(s, t, i) && ExitEntry(s, t, j) && InWait(t.procs[i])
    requires s.procs[i].chan == OnProc(i) && (InWait(s.procs[i]) ==> !ZombieOf(s.procs[j], i))
    ensures !ZombieOf(t.procs[j], i)
  {
    if ZombieOf(t.procs[j], i) && s.procs[j].parent == s.cur {
      assert HasChild(s.procs, s.cur);
    }
  }

  lemma ExitPids(s: Sys, t: Sys, code: int)
    requires Exits(s, t, code) && PidOk(s) && CpuOk(s) && ReapedOk(s) && ExitsOk(s)
    ensures PidOk(t) && CpuOk(t) && ReapedOk(t) && ExitsOk(t)
  {
    assert forall j :: 0 <= j < 64 ==> ExitEntry(s, t, j);
  }

  /** proczero has the smallest pid. */
  lemma ProczeroFirst(s: Sys, i: int)
    requires TreeOk(s) && IsIdx(i) && s.procs[i].st != Unused && i != 0
    ensures s.procs[0].pid < s.procs[i].pid
    decreases s.procs[i].pid
  {
    assert ChildOk(s, i);
    if s.procs[i].parent != 0 {
      ProczeroFirst(s, s.procs[i].parent);
    }
  }

  lemma ExitKeeps(s: Sys, code: int)
    requires Inv(s) && HasCpu(s) && s.cur != 0
    ensures Inv(Exited(s, code))
  {
    var t := Exited(s, code);
    assert s.procs[s.cur].parent != s.cur by { assert TreeOk(s); Running1(s); }
    Running1(s);
    hide TreeOk, WaitOk, ChanOk, PidOk, CpuOk, ReapedOk, ExitsOk, Exited, ExitEntry;
    forall j | 0 <= j < 64 ensures |t.procs| == 64 && ExitEntry(s, t, j) { ExitedAt(s, code, j); }
    ExitShape(s, code);
    assert Exits(s, t, code);
    hide Exits;
    ExitTree(s, t, code);
    ExitWaits(s, t, code);
    ExitPids(s, t, code);
  }

  lemma ExitShape(s: Sys, code: int)
    requires HasCpu(s) && s.cur != 0
    ensures var t := Exited(s, code);
            |t.procs| == 64 && t.cur == -1 && t.last == s.last && t.nextPid == s.nextPid && t.reaped == s.reaped
            && t.procs[s.cur].code == code && t.exits == s.exits[s.procs[s.cur].pid := code]
  {
  }

  // ---------- wakeups from elsewhere ----------

  lemma WakeKeeps(s: Sys, n: nat)
    requires Inv(s)
    ensures Inv(s.(procs := Woken(s.procs, s.cur, OnOther(n))))
  {
    var t := s.(procs := Woken(s.procs, s.cur, OnOther(n)));
    forall i | 0 <= i < 64
      ensures t.procs[i] == s.procs[i].(st := t.procs[i].st)
      ensures t.procs[i].st == s.procs[i].st
              || (s.procs[i].st == Sleeping && !s.procs[i].chan.OnProc? && t.procs[i].st == Runnable)
    {
      WokenAt(s.procs, s.cur, OnOther(n), i);
    }
    hide Woken, Inv, WaitOk, ChanOk, PidOk, CpuOk, ReapedOk, ExitsOk;
    assert OnlyWoken(s, t);
    assert t.cur == s.cur && t.last == s.last && t.nextPid == s.nextPid && t.reaped == s.reaped && t.exits == s.exits;
    hide OnlyWoken;
    WokenTree(s, t);
    WokenWaits(s, t);
    WokenPids(s, t);
    assert Inv(t) by { InvIs(t); }
  }

  /** Some processes that slept, but not in proc_wait, have become runnable. */
  ghost predicate OnlyWoken(s: Sys, t: Sys) {
    && |s.procs| == 64 && |t.procs| == 64
    && forall i {:trigger t.procs[i]} {:trigger s.procs[i]} :: 0 <= i < 64 ==>
         t.procs[i] == s.procs[i].(st := t.procs[i].st)
         && (t.procs[i].st == s.procs[i].st
             || (s.procs[i].st == Sleeping && !s.procs[i].chan.OnProc? && t.procs[i].st == Runnable))
  }

  lemma InvIs(s: Sys)
    requires TreeOk(s) && WaitOk(s) && ChanOk(s) && PidOk(s) && CpuOk(s) && ReapedOk(s) && ExitsOk(s)
    ensures Inv(s)
  {
  }

  lemma WokenTree(s: Sys, t: Sys)
    requires OnlyWoken(s, t) && Inv(s)
    ensures TreeOk(t)
  {
    hide WaitOk, ChanOk, PidOk, CpuOk, ReapedOk, ExitsOk;
    forall i | IsIdx(i) ensures ChildOk(t, i) {
      assert ChildOk(s, i);
    }
  }

  lemma WokenWaits(s: Sys, t: Sys)
    requires OnlyWoken(s, t) && Inv(s) && t.cur == s.cur && t.last == s.last
    ensures WaitOk(t) && ChanOk(t) && CpuOk(t)
  {
    hide TreeOk, PidOk, ReapedOk, ExitsOk;
  }

  lemma WokenPids(s: Sys, t: Sys)
    requires OnlyWoken(s, t) && Inv(s) && t.nextPid == s.nextPid && t.reaped == s.reaped && t.exits == s.exits
    ensures PidOk(t) && ReapedOk(t) && ExitsOk(t)
  {
    hide TreeOk, WaitOk, ChanOk, CpuOk;
  }

  // ---------- runs ----------

  datatype Action =
    | Fork(memory: bool) | Exit(code: int) | Wait | Sleep(n: nat) | Wakeup(n: nat) | Yield | Tick | Schedule

  /**
   * One step: what the current process asks for, an interrupt, or the scheduler.
   * proczero's exit panics and is no step.
   */
  ghost predicate Step(s: Sys, a: Action, t: Sys) {
    match a
    case Fork(memory) => HasCpu(s) && t == Forked(s, memory)
    case Exit(code) => HasCpu(s) && s.cur != 0 && t == Exited(s, code)
    case Wait => HasCpu(s) && t == Waited(s)
    case Sleep(n) => HasCpu(s) && t == Slept(s, OnOther(n))
    case Wakeup(n) => t == s.(procs := Woken(s.procs, s.cur, OnOther(n)))
    case Yield => HasCpu(s) && t == Yielded(s)
    case Tick => (s.cur == -1 || HasCpu(s)) && t == Ticked(s)
    case Schedule => |s.procs| == 64 && s.cur == -1 && t == Scheduled(s)
  }

  /** After proc_init and proc_make_first, when the scheduler starts. */
  ghost predicate Initial(s: Sys) {
    && |s.procs| == 64 && s.procs[0] == Proc(Runnable, 1, -1, 0, NoChan, 10, 0)
    && (forall i {:trigger s.procs[i]} :: 1 <= i < 64 ==> s.procs[i] == FREE)
    && s.cur == -1 && s.last == -1 && s.nextPid == 2 && s.reaped == [] && s.exits == map[]
  }

  lemma InitialIsOk(s: Sys)
    requires Initial(s)
    ensures Inv(s)
  {
  }

  lemma StepKeeps(s: Sys, a: Action, t: Sys)
    requires Inv(s) && Step(s, a, t)
    ensures Inv(t)
  {
    hide Inv;
    match a
    case Fork(memory) => ForkKeeps(s, memory);
    case Exit(code) => ExitKeeps(s, code);
    case Wait => WaitKeeps(s);
    case Sleep(n) => SleepKeeps(s, OnOther(n));
    case Wakeup(n) => WakeKeeps(s, n);
    case Yield => YieldKeeps(s);
    case Tick => TickKeeps(s);
    case Schedule => ScheduleKeeps(s);
  }

  ghost predicate Run(states: seq<Sys>, actions: seq<Action>) {
    && |states| == |actions| + 1
    && forall i :: 0 <= i < |actions| ==> Step(states[i], actions[i], states[i + 1])
  }

  /** The invariant holds in every state of every run. */
  lemma {:induction false} RunsAreSafe(states: seq<Sys>, actions: seq<Action>, n: nat)
    requires Run(states, actions) && Inv(states[0]) && n < |states|
    ensures Inv(states[n])
  {
    hide Inv, Step;
    if n > 0 {
      RunsAreSafe(states, actions, n - 1);
      assert Step(states[n - 1], actions[n - 1], states[n - 1 + 1]);
      StepKeeps(states[n - 1], actions[n - 1], states[n]);
    }
  }
}
