/** The operations of kernel/proc/proc.c and the tick handlers, as the loops they are. */
module Kernel {
  import opened ProcTable
  import opened Fairness

  /** What one scan of proc_wait comes to. */
  datatype WaitResult = Child(pid: nat) | NoChildren | Asleep

  /** One entry in the middle of the loop of proc_reparent. */
  function Between(p: Proc, i: int, cur: int, done: bool, seen: bool): Proc {
    var q := if done && p.parent == cur then p.(parent := 0) else p;
    if seen then WokenOne(q, i, cur, OnProc(0)) else q
  }

  /** A fork into the first unused entry, `c`. */
  ghost predicate ForkedInto(p0: seq<Proc>, p1: seq<Proc>, c: int, parent: int, pid: nat) {
    && 0 <= c < |p0| && p0[c].st == Unused && (forall j :: 0 <= j < c ==> p0[j].st != Unused)
    && p1 == p0[c := p0[c].(pid := pid, parent := parent, st := Runnable, slice := 10, total := 0)]
  }

  class Table {
    var procs: seq<Proc>
    var cur: int
    var last: int
    var nextPid: nat
    ghost var reaped: seq<Reaped>
    ghost var exits: map<nat, int>

    ghost function View(): Sys
      reads this
    {
      Sys(procs, cur, last, nextPid, reaped, exits)
    }

    /** proc_init and proc_make_first, as far as the table goes. */
    constructor ()
      ensures Initial(View())
    {
      procs := [Proc(Runnable, 1, -1, 0, NoChan, 10, 0)] + seq(63, _ => FREE);
      cur, last, nextPid := -1, -1, 2;
      reaped, exits := [], map[];
    }

    /** proc_wakeup */
    method Wakeup(chan: Chan)
      requires |procs| == 64
      modifies `procs
      ensures procs == Woken(old(procs), cur, chan) && |procs| == 64
      ensures forall i {:trigger procs[i]} :: 0 <= i < 64 ==>
        if i != cur && old(procs)[i].st == Sleeping && old(procs)[i].chan == chan
        then procs[i] == old(procs)[i].(st := Runnable) else procs[i] == old(procs)[i]
    {
      ghost var p0 := procs;
      var i := 0;
      while i < 64
        invariant 0 <= i <= 64 && |procs| == 64
        invariant forall j :: 0 <= j < i ==> procs[j] == WokenOne(p0[j], j, cur, chan)
        invariant forall j :: i <= j < 64 ==> procs[j] == p0[j]
      {
        if i != cur {
          if procs[i].st == Sleeping && procs[i].chan == chan {
            procs := procs[i := procs[i].(st := Runnable)];
          }
        }
        i := i + 1;
      }
      assert procs == Woken(p0, cur, chan);
    }

    /** proc_reparent for the current process; proczero is woken once per child. */
    method Reparent()
      requires |procs| == 64
      modifies `procs
      ensures procs == Reparented(old(procs), cur, cur) && |procs| == 64
      ensures forall j {:trigger procs[j]} :: 0 <= j < 64 ==>
        procs[j] == old(procs)[j].(st := procs[j].st, parent := procs[j].parent)
        && procs[j].parent == (if old(procs)[j].parent == cur then 0 else old(procs)[j].parent)
        && (procs[j].st == if j != cur && old(procs)[j].st == Sleeping && old(procs)[j].chan == OnProc(0)
                              && (exists i :: 0 <= i < 64 && old(procs)[i].parent == cur)
                           then Runnable else old(procs)[j].st)
    {
      ghost var p0 := procs;
      ghost var seen := false;
      var i := 0;
      while i < 64
        invariant 0 <= i <= 64 && |procs| == 64
        invariant seen <==> exists k :: 0 <= k < i && p0[k].parent == cur
        invariant forall j :: 0 <= j < 64 ==> procs[j] == Between(p0[j], j, cur, j < i, seen)
      {
        if procs[i].parent == cur {
          procs := procs[i := procs[i].(parent := 0)];
          Wakeup(OnProc(0));
          seen := true;
        }
        i := i + 1;
      }
      assert procs == Reparented(p0, cur, cur);
    }

    /** proc_exit: proczero's exit is the panic, which changes nothing. */
    method Exit(code: int) returns (panic: bool)
      requires Inv(View()) && HasCpu(View())
      modifies this
      ensures panic <==> old(cur) == 0
      ensures panic ==> View() == old(View())
      ensures !panic ==> Step(old(View()), Action.Exit(code), View()) && Inv(View())
      ensures !panic ==> cur == -1 && |procs| == 64 && |old(procs)| == 64
      ensures !panic ==> procs[old(cur)] == old(procs)[old(cur)].(st := Zombie, code := code)
      ensures !panic ==> forall j {:trigger procs[j]} :: 0 <= j < 64 && j != old(cur) ==>
        procs[j] == old(procs)[j].(st := procs[j].st, parent := procs[j].parent)
        && procs[j].parent == (if old(procs)[j].parent == old(cur) then 0 else old(procs)[j].parent)
        && (procs[j].st == if old(procs)[j].st == Sleeping
                              && (old(procs)[j].chan == OnProc(old(procs)[old(cur)].parent)
                                  || (old(procs)[j].chan == OnProc(0)
                                      && exists i :: 0 <= i < 64 && old(procs)[i].parent == old(cur)))
                           then Runnable else old(procs)[j].st)
    {
      if cur == 0 {
        return true;
      }
      ghost var s := View();
      CurrentHasParent(s);
      Reparent();
      Wakeup(OnProc(procs[cur].parent));
      procs := procs[cur := procs[cur].(code := code, st := Zombie)];
      exits := exits[s.procs[cur].pid := code];
      ExitedPid(s, code);
      cur := -1;
      assert View() == Exited(s, code);
      EntriesAfterExit(s, code);
      ExitKeeps(s, code);
      panic := false;
    }

    /** proc_free of an entry without trapframe, page table and files left. */
    method Free(i: int)
      requires |procs| == 64 && IsIdx(i)
      modifies `procs
      ensures procs == old(procs)[i := FREE]
    {
      var p := procs[i].(pid := 0, parent := -1);
      p := p.(chan := NoChan);
      p := p.(code := 0);
      p := p.(st := Unused);
      p := p.(slice := 10, total := 0);
      procs := procs[i := p];
    }

    /**
     * proc_alloc: the first unused entry, or -1; without memory the entry is
     * freed again. The panic is the assertion of alloc_pid, once the 32-bit
     * counter has passed its largest value.
     */
    method Alloc(memory: bool) returns (c: int, panic: bool)
      requires |procs| == 64
      modifies `procs, `nextPid
      ensures panic <==> FirstUnused(old(procs), 0) < 64 && old(nextPid) >= 0x8000_0000
      ensures FirstUnused(old(procs), 0) == 64 ==> c == -1
      ensures panic || FirstUnused(old(procs), 0) == 64 ==> procs == old(procs) && nextPid == old(nextPid)
      ensures !panic && FirstUnused(old(procs), 0) < 64 ==> nextPid == old(nextPid) + 1
      ensures !panic && FirstUnused(old(procs), 0) < 64 && memory ==> c == FirstUnused(old(procs), 0)
      ensures !panic && FirstUnused(old(procs), 0) < 64 && memory ==>
        procs == old(procs)[c := old(procs)[c].(pid := old(nextPid), st := Runnable, slice := 10, total := 0)]
      ensures !panic && FirstUnused(old(procs), 0) < 64 && !memory ==>
        c == -1 && procs == old(procs)[FirstUnused(old(procs), 0) := FREE]
    {
      panic := false;
      var i := 0;
      while i < 64 && procs[i].st != Unused
        invariant 0 <= i <= 64 && FirstUnused(procs, 0) == FirstUnused(procs, i)
      {
        i := i + 1;
      }
      if i == 64 {
        return -1, false;
      }
      if nextPid >= 0x8000_0000 {
        return -1, true;
      }
      procs := procs[i := procs[i].(pid := nextPid, st := Runnable)];
      nextPid := nextPid + 1;
      procs := procs[i := procs[i].(slice := 10, total := 0)];
      if !memory {
        Free(i);
        return -1, false;
      }
      c := i;
    }

    /** proc_fork: the child's pid, or -1; the panic is that of alloc_pid. */
    method Fork(memory: bool) returns (pid: int, panic: bool)
      requires Inv(View()) && HasCpu(View())
      modifies this
      ensures panic <==> FirstUnused(old(procs), 0) < 64 && old(nextPid) >= 0x8000_0000
      ensures panic ==> View() == old(View())
      ensures !panic ==> Step(old(View()), Action.Fork(memory), View()) && Inv(View())
      ensures !panic ==> (pid == -1 <==> (FirstUnused(old(procs), 0) == 64 || !memory))
      ensures !panic && pid != -1 ==>
        pid == old(nextPid) && nextPid == pid + 1 && |old(procs)| == 64
        && exists c :: ForkedInto(old(procs), procs, c, cur, pid)
      ensures !panic && pid == -1 ==> |procs| == |old(procs)| && forall j :: 0 <= j < |procs| ==>
        procs[j] == old(procs)[j] || (old(procs)[j].st == Unused && procs[j].st == Unused)
    {
      ghost var s := View();
      var child;
      child, panic := Alloc(memory);
      if panic {
        return -1, true;
      }
      if child == -1 {
        pid := -1;
      } else {
        procs := procs[child := procs[child].(parent := cur)];
        procs := procs[child := procs[child].(st := Runnable)];
        pid := procs[child].pid;
      }
      assert View() == Forked(s, memory);
      hide Inv;
      ForkKeeps(s, memory);
      assert pid != -1 ==> ForkedInto(s.procs, procs, child, cur, pid);
    }

    /** proc_sleep, up to the switch. */
    method Sleep(chan: Chan)
      requires HasCpu(View())
      modifies `procs, `cur
      ensures View() == Slept(old(View()), chan)
      ensures cur == -1 && procs == old(procs)[old(cur) := old(procs)[old(cur)].(st := Sleeping, chan := chan)]
    {
      procs := procs[cur := procs[cur].(chan := chan, st := Sleeping)];
      cur := -1;
    }

    /** proc_wait: one scan, from a call or after having been woken. */
    method Wait() returns (r: WaitResult)
      requires Inv(View()) && HasCpu(View())
      modifies this
      ensures Step(old(View()), Action.Wait, View()) && Inv(View())
      ensures r.Child? <==> exists j :: 0 <= j < 64 && ZombieOf(old(procs)[j], old(cur))
      ensures r.Child? ==> reaped == old(reaped) + [Reaped(r.pid, reaped[|reaped| - 1].code, old(procs)[old(cur)].pid)]
      ensures r == NoChildren <==> |old(procs)| == 64 && forall j :: 0 <= j < 64 ==> old(procs)[j].parent != old(cur)
      ensures r == NoChildren ==> View() == old(View())
      ensures r == Asleep ==>
        cur == -1 && procs == old(procs)[old(cur) := old(procs)[old(cur)].(st := Sleeping, chan := OnProc(old(cur)))]
      ensures r.Child? ==> exists z ::
        0 <= z < 64 && old(procs)[z].parent == old(cur) && old(procs)[z].st == Zombie && r.pid == old(procs)[z].pid
        && reaped[|reaped| - 1].code == old(procs)[z].code && procs == old(procs)[z := FREE]
    {
      hide Inv, FirstZombie;
      ghost var s := View();
      var haveKids := false;
      var i := 0;
      while i < 64
        invariant 0 <= i <= 64 && View() == s
        invariant haveKids <==> exists k :: 0 <= k < i && procs[k].parent == cur
        invariant FirstZombie(procs, cur, 0) == FirstZombie(procs, cur, i)
      {
        if procs[i].parent == cur {
          haveKids := true;
          if procs[i].st == Zombie {
            assert ZombieOf(s.procs[i], s.cur);
            reaped := reaped + [Reaped(procs[i].pid, procs[i].code, procs[cur].pid)];
            r := Child(procs[i].pid);
            Free(i);
            assert View() == Waited(s);
            WaitKeeps(s);
            return;
          }
        }
        i := i + 1;
      }
      if !haveKids {
        r := NoChildren;
      } else {
        r := Asleep;
        Sleep(OnProc(cur));
      }
      assert View() == Waited(s);
      WaitKeeps(s);
    }

    /** proc_yield, up to the switch. */
    method Yield()
      requires Inv(View()) && HasCpu(View())
      modifies `procs, `cur
      ensures Step(old(View()), Action.Yield, View()) && Inv(View())
      ensures cur == -1 && procs == old(procs)[old(cur) := old(procs)[old(cur)].(st := Runnable)]
    {
      YieldKeeps(View());
      procs := procs[cur := procs[cur].(st := Runnable)];
      cur := -1;
    }

    /** timer_interrupt_handler */
    method TimerInterrupt()
      requires cur == -1 || HasCpu(View())
      modifies `procs
      ensures cur == -1 ==> procs == old(procs)
      ensures cur != -1 ==> procs == old(procs)[cur := old(procs)[cur].(total := old(procs)[cur].total + 1,
                                     slice := if old(procs)[cur].slice > 0 then old(procs)[cur].slice - 1 else 0)]
    {
      if cur != -1 {
        var p := procs[cur].(total := procs[cur].total + 1);
        if p.slice > 0 {
          p := p.(slice := p.slice - 1);
        }
        procs := procs[cur := p];
      }
    }

    /** A timer interrupt in either handler: the tick, then the check of the time slice. */
    method Tick()
      requires Inv(View())
      modifies `procs, `cur
      ensures Step(old(View()), Action.Tick, View()) && Inv(View())
      ensures old(cur) == -1 ==> View() == old(View())
      ensures old(cur) != -1 ==> 0 <= old(cur) < |old(procs)| && var p := old(procs)[old(cur)];
        && cur == (if p.slice == 1 then -1 else old(cur)) && p.slice >= 1
        && procs == old(procs)[old(cur) := p.(total := p.total + 1, slice := if p.slice == 1 then 10 else p.slice - 1,
                                              st := if p.slice == 1 then Runnable else Running)]
    {
      hide Inv;
      ghost var s := View();
      CurInRange(s);
      if cur != -1 { RunningNow(s); }
      TimerInterrupt();
      if cur != -1 && procs[cur].slice == 0 {
        procs := procs[cur := procs[cur].(slice := 10, st := Runnable)];
        cur := -1;
      }
      assert View() == Ticked(s);
      TickKeeps(s);
    }

    /** proc_scheduler: one round of its endless loop; false when nobody can run. */
    method Schedule() returns (found: bool)
      requires Inv(View()) && cur == -1
      modifies `procs, `cur, `last
      ensures Step(old(View()), Action.Schedule, View()) && Inv(View())
      ensures found <==> exists i :: 0 <= i < 64 && old(procs)[i].st == Runnable
      ensures !found ==> View() == old(View())
      ensures found ==> |old(procs)| == 64 && 0 <= cur < 64 && last == cur
      ensures found ==> procs == old(procs)[cur := old(procs)[cur].(st := Running, slice := 10, chan := NoChan)]
      ensures found ==> forall j {:trigger old(procs)[j]} :: 0 <= j < 64 && old(procs)[j].st == Runnable ==>
        if cur > old(last) then j >= cur || j <= old(last) else cur <= j <= old(last)
    {
      hide Inv, PickAt, At;
      ghost var s := View();
      LastInRange(s);
      var idx := Scan();
      SomeoneRunnable(s);
      if idx == -1 {
        return false;
      }
      procs := procs[idx := procs[idx].(st := Running)];
      cur, last := idx, idx;
      procs := procs[idx := procs[idx].(slice := 10)];
      // Back in proc_sleep, if it slept, the process clears its channel.
      procs := procs[idx := procs[idx].(chan := NoChan)];
      assert View() == Scheduled(s);
      forall j {:trigger s.procs[j]} | 0 <= j < 64 && s.procs[j].st == Runnable
        ensures var i := Scheduled(s).cur; if i > s.last then j >= i || j <= s.last else i <= j <= s.last
      {
        FirstPicked(s, j);
      }
      ScheduleKeeps(s);
      found := true;
    }

    /** The scan for the next runnable process; -1 when there is none. */
    method Scan() returns (idx: int)
      requires |procs| == 64 && -1 <= last < 64
      ensures var k := PickAt(View(), 0); idx == if k == 64 then -1 else At(last, k)
    {
      ghost var s := View();
      hide At;
      var start := (last + 1) % 64;
      var i := 0;
      while i < 64
        invariant 0 <= i <= 64 && PickAt(s, 0) == PickAt(s, i)
      {
        idx := (start + i) % 64;
        SameSlot(last, i);
        if procs[idx].st == Runnable {
          return;
        }
        i := i + 1;
      }
      idx := -1;
    }
  }

  lemma DistIs(last: int, i: int)
    requires -1 <= last < 64 && IsIdx(i)
    ensures Dist(last, i) == if i > last then i - last - 1 else i - last + 63
  {
  }

  /** The pick comes first, counted from the slot after the last one and round to the start. */
  lemma FirstPicked(s: Sys, j: int)
    requires Inv(s) && s.cur == -1 && IsIdx(j) && s.procs[j].st == Runnable
    ensures var i := Scheduled(s).cur; if i > s.last then j >= i || j <= s.last else i <= j <= s.last
  {
    PickComesNearer(s, j);
    LastInRange(s);
    var i := Scheduled(s).cur;
    hide Inv, Dist, Scheduled, PickAt;
    DistIs(s.last, i);
    DistIs(s.last, j);
  }

  /** What an exit leaves of every entry. */
  lemma EntriesAfterExit(s: Sys, code: int)
    requires Inv(s) && HasCpu(s) && s.cur != 0
    ensures var t := Exited(s, code).procs; |t| == 64 && t[s.cur] == s.procs[s.cur].(st := Zombie, code := code)
    ensures var t := Exited(s, code).procs; forall j {:trigger t[j]} :: 0 <= j < 64 && j != s.cur ==>
      && t[j] == s.procs[j].(st := t[j].st, parent := t[j].parent)
      && t[j].parent == (if s.procs[j].parent == s.cur then 0 else s.procs[j].parent)
      && (t[j].st == if s.procs[j].st == Sleeping
                        && (s.procs[j].chan == OnProc(s.procs[s.cur].parent)
                            || (s.procs[j].chan == OnProc(0) && HasChild(s.procs, s.cur)))
                     then Runnable else s.procs[j].st)
  {
    CurrentHasParent(s);
    ExitShape(s, code);
    hide Inv, Exited, HasChild;
    forall j | 0 <= j < 64 ensures ExitEntry(s, Exited(s, code), j) {
      ExitedAt(s, code, j);
    }
    assert ExitEntry(s, Exited(s, code), s.cur);
  }

  lemma RunningNow(s: Sys)
    requires Inv(s) && s.cur != -1
    ensures HasCpu(s) && s.procs[s.cur].st == Running && s.procs[s.cur].slice >= 1
  {
  }

  lemma CurInRange(s: Sys)
    requires Inv(s)
    ensures |s.procs| == 64 && (s.cur == -1 || HasCpu(s))
  {
  }

  lemma SomeoneRunnable(s: Sys)
    requires |s.procs| == 64 && -1 <= s.last < 64
    ensures PickAt(s, 0) < 64 <==> exists i :: 0 <= i < 64 && s.procs[i].st == Runnable
    ensures PickAt(s, 0) < 64 ==> IsIdx(At(s.last, PickAt(s, 0)))
  {
    hide At;
    if PickAt(s, 0) == 64 { AllLookedAt(s); }
  }

  lemma SameSlot(last: int, i: nat)
    requires -1 <= last < 64 && i < 64
    ensures ((last + 1) % 64 + i) % 64 == At(last, i) && 0 <= At(last, i) < 64
  {
  }

  /** A scan of 64 slots from any start looks at every slot. */
  lemma AllLookedAt(s: Sys)
    requires |s.procs| == 64 && -1 <= s.last < 64 && PickAt(s, 0) == 64
    ensures forall i :: 0 <= i < 64 ==> s.procs[i].st != Runnable
  {
    forall i | 0 <= i < 64 ensures s.procs[i].st != Runnable {
      DistRange(s.last, i);
      var d: nat := Dist(s.last, i);
      hide At, Dist;
      assert s.procs[At(s.last, d)].st != Runnable;
    }
  }

  lemma CurrentHasParent(s: Sys)
    requires Inv(s) && HasCpu(s) && s.cur != 0
    ensures IsIdx(s.procs[s.cur].parent) && s.procs[s.cur].parent != s.cur && s.procs[s.cur].st == Running
  {
    assert ChildOk(s, s.cur);
  }

  lemma ExitedPid(s: Sys, code: int)
    requires Inv(s) && HasCpu(s) && s.cur != 0
    ensures var ps := Reparented(s.procs, s.cur, s.cur);
            Woken(ps, s.cur, OnProc(ps[s.cur].parent))[s.cur].pid == s.procs[s.cur].pid
  {
    ReparentedAt(s.procs, s.cur, s.cur, s.cur);
  }
}
