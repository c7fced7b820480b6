/** The block driver itself (kernel/dev/virtio.c:121-281): its loops are the steps of the virtqueue machine. */
module Virtio {
  import opened Virtqueue

  /** The free descriptors. */
  ghost function FreeSet(free: seq<bool>): set<int> {
    set i: int | 0 <= i < |free| && free[i]
  }

  /** Taking the listed descriptors. */
  ghost predicate TakenFrom(old1: seq<bool>, new1: seq<bool>, idx: seq<int>) {
    && |old1| == 8 && |new1| == 8
    && (forall k :: 0 <= k < |idx| ==> IsIdx(idx[k]) && old1[idx[k]])
    && (forall j, k :: 0 <= j < k < |idx| ==> idx[j] != idx[k])
    && (forall x :: 0 <= x < 8 ==> (new1[x] <==> old1[x] && x !in idx))
  }

  /** Addresses were cleared at free descriptors only. */
  ghost predicate Scratched(free: seq<bool>, old1: seq<Desc>, new1: seq<Desc>) {
    |free| == 8 && |old1| == 8 && |new1| == 8 && forall i :: 0 <= i < 8 && !free[i] ==> new1[i] == old1[i]
  }

  lemma FewFree(old1: seq<bool>, new1: seq<bool>, idx: seq<int>)
    requires TakenFrom(old1, new1, idx) && forall x :: 0 <= x < 8 ==> !new1[x]
    ensures |FreeSet(old1)| <= |idx|
  {
    InjectiveCount(idx);
    var s := set i | 0 <= i < |idx| :: idx[i];
    assert forall x :: x in FreeSet(old1) ==> x in idx;
    SubsetSize(FreeSet(old1), s);
  }

  lemma ManyFree(old1: seq<bool>, new1: seq<bool>, idx: seq<int>)
    requires TakenFrom(old1, new1, idx)
    ensures |idx| <= |FreeSet(old1)|
  {
    InjectiveCount(idx);
    SubsetSize(set i | 0 <= i < |idx| :: idx[i], FreeSet(old1));
  }

  /** The sector product as the code computes it, in 32 bits. */
  method SectorOf(block: nat) returns (r: nat)
    ensures r == Sector(block)
  {
    r := block * (1024 / 512) % 0x1_0000_0000;
  }

  lemma ThreeTaken(s: State, free: seq<bool>, idx: seq<int>)
    requires Shape(s) && |idx| == 3 && TakenFrom(s.free, free, idx)
    ensures free == s.free[idx[0] := false][idx[1] := false][idx[2] := false]
  {
  }

  class Driver {
    var free: seq<bool>
    var desc: seq<Desc>
    var avail: seq<int>
    var availIdx: nat
    var usedIdx: nat
    var info: seq<Info>
    var disk: seq<bool>
    var data: seq<int>
    var elems: seq<int>
    var usedId: nat
    var devIdx: nat
    ghost var store: map<nat, int>
    ghost var flights: map<int, Flight>
    ghost var owner: seq<int>
    ghost var posted: nat
    ghost var taken: nat
    ghost var completions: seq<nat>
    ghost var processed: nat
    ghost var who: map<nat, int>

    ghost function View(): State
      reads this
    {
      State(free, desc, avail, availIdx, usedIdx, info, disk, data, elems, usedId, devIdx, store,
            flights, owner, posted, taken, completions, processed, who)
    }

    /** virtio_disk_init, as far as memory goes. */
    constructor (infos: seq<Info>, buffers: seq<int>)
      requires |infos| == 8 && |buffers| == 64
      ensures Initial(View()) && Inv(View())
    {
      free := seq(8, _ => true);
      desc := seq(8, _ => Desc(Nowhere, false, false, 0));
      avail, elems := seq(8, _ => 0), seq(8, _ => 0);
      availIdx, usedIdx, usedId, devIdx := 0, 0, 0, 0;
      info, data := infos, buffers;
      disk := seq(64, _ => false);
      store, flights, who, completions := map[], map[], map[], [];
      owner := seq(8, _ => -1);
      posted, taken, processed := 0, 0, 0;
      new;
      InitialIsOk(View());
    }

    /** alloc_desc: the first free descriptor, or -1 when there is none. */
    method AllocDesc() returns (d: int)
      requires |free| == 8
      modifies `free
      ensures |free| == 8
      ensures d == -1 ==> free == old(free) && forall x :: 0 <= x < 8 ==> !old(free[x])
      ensures d != -1 ==> IsIdx(d) && old(free)[d] && free == old(free)[d := false] && forall x :: 0 <= x < d ==>
              !old(free)[x]
    {
      var i := 0;
      while i < 8
        invariant 0 <= i <= 8 && free == old(free) && forall x :: 0 <= x < i ==> !free[x]
      {
        if free[i] {
          free := free[i := false];
          return i;
        }
        i := i + 1;
      }
      d := -1;
    }

    /** free_desc: it panics for a number past the last descriptor and for a free one, and then changes nothing. */
    method FreeDesc(i: nat) returns (panic: bool)
      requires |free| == 8 && |desc| == 8
      modifies `free, `desc
      ensures panic <==> i >= 8 || old(free)[i]
      ensures panic ==> free == old(free) && desc == old(desc)
      ensures !panic ==> free == old(free)[i := true] && desc == old(desc)[i := old(desc)[i].(addr := Nowhere)]
    {
      if i >= 8 || free[i] {
        return true;
      }
      panic := false;
      desc := desc[i := desc[i].(addr := Nowhere)];
      free := free[i := true];
    }

    /** alloc3_desc: three descriptors when there are three, else the free set is as before. */
    method Alloc3() returns (ok: bool, idx: seq<int>)
      requires |free| == 8 && |desc| == 8
      modifies `free, `desc
      ensures ok <==> |FreeSet(old(free))| >= 3
      ensures ok ==> |idx| == 3 && TakenFrom(old(free), free, idx) && desc == old(desc)
      ensures !ok ==> free == old(free) && Scratched(free, old(desc), desc)
    {
      ghost var f0, d0 := free, desc;
      idx := [];
      var i := 0;
      while i < 3
        invariant 0 <= i <= 3 && |idx| == i && TakenFrom(f0, free, idx) && desc == d0
      {
        var d := AllocDesc();
        if d < 0 {
          FewFree(f0, free, idx);
          Undo(idx, f0, d0);
          return false, idx;
        }
        assert forall x :: x in idx + [d] <==> x in idx || x == d;
        idx := idx + [d];
        i := i + 1;
      }
      ManyFree(f0, free, idx);
      ok := true;
    }

    /** The loop of alloc3_desc that gives back what was taken. */
    method Undo(idx: seq<int>, ghost f0: seq<bool>, ghost d0: seq<Desc>)
      requires TakenFrom(f0, free, idx) && desc == d0 && |desc| == 8
      modifies `free, `desc
      ensures free == f0 && Scratched(f0, d0, desc)
    {
      var j := 0;
      while j < |idx|
        invariant 0 <= j <= |idx| && TakenFrom(f0, free, idx[j..]) && Scratched(f0, d0, desc)
      {
        assert idx[j..] == [idx[j]] + idx[j + 1..];
        var panic := FreeDesc(idx[j]);
        assert !panic;
        j := j + 1;
      }
      assert idx[j..] == [];
    }

    /**
     * virtio_disk_rw up to its wait: the head of the chain, or -1 when there
     * are no three descriptors, in which case the caller sleeps and tries again.
     */
    method Request(b: int, block: nat, write: bool) returns (head: int)
      requires Inv(View()) && 0 <= b < 64
      requires forall h :: h in flights ==> flights[h].buf != b && Sector(flights[h].block) != Sector(block)
      modifies this
      ensures Inv(View())
      ensures head == -1 <==> |FreeSet(old(free))| < 3
      ensures head == -1 ==> free == old(free) && Step(old(View()), Scratch(desc), View())
      ensures head != -1 ==> head in flights && flights[head].ticket == old(posted) && head !in old(flights)
      ensures head != -1 ==>
              Step(old(View()), Submit(head, flights[head].d1, flights[head].d2, b, block, write), View())
      ensures head != -1 ==> var d1, d2 := flights[head].d1, flights[head].d2;
        && IsIdx(head) && IsIdx(d1) && IsIdx(d2) && head != d1 && head != d2 && d1 != d2 && |old(free)| == 8
        && old(free)[head] && old(free)[d1] && old(free)[d2]
        && free == old(free)[head := false][d1 := false][d2 := false]
      ensures head != -1 ==> var d1, d2 := flights[head].d1, flights[head].d2;
        && |old(desc)| == 8
        && desc == old(desc)[head := Desc(Header(write, block * 2 % 0x1_0000_0000), false, true, d1)]
                            [d1 := Desc(BufferData(b), !write, true, d2)]
                            [d2 := Desc(StatusByte(head), true, false, 0)]
      ensures head != -1 ==>
        && |old(info)| == 8 && info == old(info)[head := Info(b, 0)]
        && |old(disk)| == 64 && disk == old(disk)[b := true] && data == old(data)
        && |old(avail)| == 8 && avail == old(avail)[old(availIdx) % 8 := head]
        && availIdx == (old(availIdx) + 1) % 65536
    {
      hide Inv, FreeSet, Submitted, Sector;
      ghost var s := View();
      InvShape(s);
      SectorIs(block);
      var ok, idx := Alloc3();
      if !ok {
        head := -1;
        assert View() == s.(desc := desc);
        StepKeeps(s, Scratch(desc), View());
        return;
      }
      var i0, i1, i2 := idx[0], idx[1], idx[2];
      ThreeTaken(s, free, idx);
      Format(i0, i1, i2, b, block, write, s);
      FreeIsUnused(s, i0);
      StepKeeps(s, Submit(i0, i1, i2, b, block, write), View());
      SubmittedIs(s, i0, i1, i2, b, block, write);
      head := i0;
    }

    /** The middle of virtio_disk_rw: the chain is written and posted. */
    method Format(i0: int, i1: int, i2: int, b: int, block: nat, write: bool, ghost s: State)
      requires Shape(s) && IsIdx(i0) && IsIdx(i1) && IsIdx(i2) && 0 <= b < 64
      requires View() == s.(free := s.free[i0 := false][i1 := false][i2 := false])
      modifies `desc, `info, `disk, `avail, `availIdx, `flights, `owner, `posted, `who
      ensures View() == Submitted(s, i0, i1, i2, b, block, write)
      ensures i0 in flights && flights[i0] == Flight(s.posted, i1, i2, b, block, write, Posted)
    {
      hide Sector;
      Chain(i0, i1, i2, b, block, write);
      Post(i0);
      flights, owner := flights[i0 := Flight(posted, i1, i2, b, block, write, Posted)],
          owner[i0 := i0][i1 := i0][i2 := i0];
      who, posted := who[posted := i0], posted + 1;
    }

    /** The three descriptors, and what the interrupt needs to know. */
    method Chain(i0: int, i1: int, i2: int, b: int, block: nat, write: bool)
      requires |desc| == 8 && |info| == 8 && |disk| == 64 && IsIdx(i0) && IsIdx(i1) && IsIdx(i2) && 0 <= b < 64
      modifies `desc, `info, `disk
      ensures desc == old(desc)[i0 := Desc(Header(write, Sector(block)), false, true, i1)]
                               [i1 := Desc(BufferData(b), !write, true, i2)][i2 := Desc(StatusByte(i0), true, false, 0)]
      ensures info == old(info)[i0 := Info(b, 0)] && disk == old(disk)[b := true]
    {
      hide Sector;
      var sector := SectorOf(block);
      desc := desc[i0 := Desc(Header(write, sector), false, true, i1)];
      desc := desc[i1 := Desc(BufferData(b), !write, true, i2)];
      info := info[i0 := info[i0].(status := 0)];
      desc := desc[i2 := Desc(StatusByte(i0), true, false, 0)];
      disk := disk[b := true];
      info := info[i0 := info[i0].(b := b)];
    }

    /** The head goes into the available ring, then the ring's index moves on. */
    method Post(i0: int)
      requires |avail| == 8
      modifies `avail, `availIdx
      ensures avail == old(avail)[old(availIdx) % 8 := i0] && availIdx == (old(availIdx) + 1) % 65536
    {
      avail := avail[availIdx % 8 := i0];
      availIdx := (availIdx + 1) % 65536;
    }

    /**
     * virtio_disk_intr: every completion there is processed, once each and in
     * their order; neither panic nor a missing buffer occurs.
     */
    method Interrupt()
      requires Inv(View())
      modifies `disk, `usedIdx, `flights, `processed, `who
      ensures Inv(View()) && processed == |completions|
      ensures Rounds(old(View()), |completions| - old(processed), View())
      ensures usedIdx % 8 == usedId % 8 && flights.Keys == old(flights).Keys
      ensures forall h :: h in flights ==>
        flights[h] == if old(flights)[h].phase.Completed? then old(flights)[h].(phase := Done) else old(flights)[h]
      ensures |disk| == 64 && |old(disk)| == 64 && forall b :: 0 <= b < 64 ==>
        (disk[b] <==> old(disk)[b] && !HasCompleted(old(flights), b))
    {
      hide Inv, Rounds, CanProcess, Acked;
      ghost var s := View();
      IndicesAreExact(s);
      InvShapeHist(s);
      InvShape(s);
      NoRounds(s);
      NothingAcked(s);
      while usedIdx % 8 != usedId % 8
        invariant Inv(View()) && s.processed <= processed <= |completions| && completions == s.completions
        invariant Rounds(s, processed - s.processed, View())
        invariant Acked(s, View())
        decreases |completions| - processed
      {
        ghost var before := View();
        ProcessOne(s);
        AckedMore(s, before);
      }
      IndicesAreExact(View());
      AckedAll(s, View());
    }

    /** One round of the loop. */
    method ProcessOne(ghost s: State)
      requires Inv(View()) && usedIdx % 8 != usedId % 8
      requires s.processed <= processed && Rounds(s, processed - s.processed, View())
      modifies `disk, `usedIdx, `flights, `processed, `who
      ensures Inv(View()) && processed == old(processed) + 1 && processed <= |completions|
      ensures CanProcess(old(View()))
      ensures View() == ProcessedState(old(View())) && Rounds(s, processed - s.processed, View())
    {
      hide Inv, Rounds, Processes, Counters;
      ghost var t := View();
      InterruptSees(t);
      RoundsMore(s, t.processed - s.processed, t);
      ProcessKeeps(t);
      ghost var h := elems[usedIdx];
      assert View() == t && CanProcess(t) && h == t.elems[t.usedIdx];
      Acknowledge();
      Answered(h, t);
    }

    /** The request is answered, which only the proof records. */
    ghost method Answered(h: int, t: State)
      requires CanProcess(t) && h == t.elems[t.usedIdx]
      requires View() == t.(disk := t.disk[t.info[h].b := false], usedIdx := (t.usedIdx + 1) % 8)
      modifies `flights, `processed, `who
      ensures View() == ProcessedState(t) && processed == t.processed + 1
    {
      processed := processed + 1;
      who := who - {flights[h].ticket};
      flights := flights[h := flights[h].(phase := Done)];
    }

    /** The stores of one round: the buffer's flag, and the place in the used ring. */
    method Acknowledge()
      requires |elems| == 8 && |info| == 8 && |disk| == 64 && usedIdx < 8 && IsIdx(elems[usedIdx])
      requires info[elems[usedIdx]].status == 0 && 0 <= info[elems[usedIdx]].b < 64
      modifies `disk, `usedIdx
      ensures disk == old(disk)[info[elems[old(usedIdx)]].b := false] && usedIdx == (old(usedIdx) + 1) % 8
    {
      var id := elems[usedIdx];
      // The panic for a bad status is not reached.
      assert info[id].status == 0;
      disk := disk[info[id].b := false];
      usedIdx := (usedIdx + 1) % 8;
    }

    /** virtio_disk_rw after its wait, once the buffer's flag is clear. */
    method Finish(head: int)
      requires Inv(View()) && CanReap(View(), head)
      modifies this
      ensures Inv(View()) && View() == ReapedState(old(View()), head)
      ensures old(flights[head].ticket) in completions[..processed]
      ensures data[old(flights[head].buf)] == OnMedium(store, Sector(old(flights[head].block)))
      ensures var d1, d2 := old(flights[head].d1), old(flights[head].d2);
        && |old(free)| == 8 && free == old(free)[head := true][d1 := true][d2 := true]
        && flights == old(flights) - {head} && data == old(data) && disk == old(disk)
        && |old(info)| == 8 && info == old(info)[head := old(info)[head].(b := -1)]
    {
      hide Inv, CanReap;
      ghost var s := View();
      ReapFacts(s, head);
      info := info[head := info[head].(b := -1)];
      FreeChain(head, s.flights[head].d1, s.flights[head].d2);
      Left(head, s);
    }

    /** The chain is nobody's any more, which only the proof records. */
    ghost method Left(h: int, s: State)
      requires CanReap(s, h) && owner == s.owner && flights == s.flights
      requires View() == ReapedState(s, h).(owner := s.owner, flights := s.flights)
      modifies `flights, `owner
      ensures View() == ReapedState(s, h)
    {
      owner := owner[h := -1][s.flights[h].d1 := -1][s.flights[h].d2 := -1];
      flights := flights - {h};
    }

    /** free_chain follows the links of the chain, and ends with its third descriptor; free_desc does not panic. */
    method FreeChain(h: int, ghost d1: int, ghost d2: int)
      requires |free| == 8 && |desc| == 8 && IsIdx(h) && IsIdx(d1) && IsIdx(d2) && h != d1 && h != d2 && d1 != d2
      requires !free[h] && !free[d1] && !free[d2]
      requires desc[h].hasNext && desc[h].next == d1 && desc[d1].hasNext && desc[d1].next == d2 && !desc[d2].hasNext
      modifies `free, `desc
      ensures free == old(free)[h := true][d1 := true][d2 := true]
      ensures desc == old(desc)[h := old(desc)[h].(addr := Nowhere)]
                        [d1 := old(desc)[d1].(addr := Nowhere)][d2 := old(desc)[d2].(addr := Nowhere)]
    {
      ghost var f0, e0 := free, desc;
      var i := h;
      ghost var k := 0;
      while true
        invariant 0 <= k <= 2 && i == [h, d1, d2][k]
        invariant free == (if k == 0 then f0 else if k == 1 then f0[h := true] else f0[h := true][d1 := true])
        invariant desc == (if k == 0 then e0 else if k == 1 then e0[h := e0[h].(addr := Nowhere)]
                           else e0[h := e0[h].(addr := Nowhere)][d1 := e0[d1].(addr := Nowhere)])
        decreases 3 - k
      {
        var panic := FreeDesc(i);
        assert !panic;
        if desc[i].hasNext {
          i := desc[i].next;
          k := k + 1;
        } else {
          break;
        }
      }
    }
  }

  /** The interrupt's loop as steps: `n` rounds. */
  ghost predicate Rounds(s: State, n: nat, t: State)
    decreases n
  {
    if n == 0 then t == s else CanProcess(s) && Rounds(ProcessedState(s), n - 1, t)
  }

  ghost predicate HasCompleted(flights: map<int, Flight>, b: int) {
    exists h :: h in flights && flights[h].phase.Completed? && flights[h].buf == b
  }

  /** A request for buffer `b` has moved on. */
  ghost predicate Changed(s: State, t: State, b: int)
    requires t.flights.Keys == s.flights.Keys
  {
    exists h :: h in t.flights && t.flights[h] != s.flights[h] && s.flights[h].buf == b
  }

  /** Some completed requests are done, and their buffers' flags clear; nothing else has changed. */
  ghost predicate Acked(s: State, t: State) {
    && t.flights.Keys == s.flights.Keys && |s.disk| == 64 && |t.disk| == 64
    && (forall h :: h in t.flights ==>
          t.flights[h] == s.flights[h]
          || (s.flights[h].phase.Completed? && t.flights[h] == s.flights[h].(phase := Done)))
    && (forall b :: 0 <= b < 64 ==>
          (t.disk[b] <==> s.disk[b] && !Changed(s, t, b)))
  }

  lemma NothingAcked(s: State)
    requires Shape(s)
    ensures Acked(s, s)
  {
  }

  lemma AckedMore(s: State, t: State)
    requires Acked(s, t) && Inv(t) && CanProcess(t)
    ensures Acked(s, ProcessedState(t))
  {
    InterruptSees(t);
    hide Inv;
    var h := t.elems[t.usedIdx];
    var u := ProcessedState(t);
    assert u.flights == t.flights[h := t.flights[h].(phase := Done)] && u.disk == t.disk[t.flights[h].buf := false];
    assert t.flights[h] == s.flights[h];
    forall b | 0 <= b < 64
      ensures u.disk[b] <==> s.disk[b] && !Changed(s, u, b)
    {
      ChangedMore(s, t, u, h, b);
    }
    hide Changed;
  }

  lemma ChangedMore(s: State, t: State, u: State, h: int, b: int)
    requires t.flights.Keys == s.flights.Keys && h in t.flights && u.flights.Keys == t.flights.Keys
    requires u.flights == t.flights[h := u.flights[h]] && u.flights[h] != s.flights[h] && t.flights[h] == s.flights[h]
    ensures Changed(s, u, b) <==> Changed(s, t, b) || s.flights[h].buf == b
  {
    if k :| k in t.flights && t.flights[k] != s.flights[k] && s.flights[k].buf == b {
      assert u.flights[k] == t.flights[k];
    }
    if k :| k in u.flights && u.flights[k] != s.flights[k] && s.flights[k].buf == b && k != h {
      assert u.flights[k] == t.flights[k];
    }
  }

  /** With everything processed it is all of them. */
  lemma AckedAll(s: State, t: State)
    requires Acked(s, t) && Inv(t) && t.processed == |t.completions|
    ensures |s.disk| == 64 && |t.disk| == 64 && t.flights.Keys == s.flights.Keys
    ensures forall h :: h in t.flights ==>
      t.flights[h] == if s.flights[h].phase.Completed? then s.flights[h].(phase := Done) else s.flights[h]
    ensures forall b :: 0 <= b < 64 ==>
      (t.disk[b] <==>
         s.disk[b] && !HasCompleted(s.flights, b))
  {
    assert forall h :: h in t.flights ==> PhaseOk(t, h);
    hide Inv;
    forall h | h in t.flights
      ensures t.flights[h] == if s.flights[h].phase.Completed? then s.flights[h].(phase := Done) else s.flights[h]
    {
      assert !t.flights[h].phase.Completed?;
    }
    hide PhaseOk;
    forall h | h in t.flights ensures t.flights[h] != s.flights[h] <==> s.flights[h].phase.Completed? {
    }
  }

  lemma NoRounds(s: State)
    ensures Rounds(s, 0, s)
  {
  }

  lemma {:induction false} RoundsMore(s: State, n: nat, t: State)
    requires Rounds(s, n, t) && CanProcess(t)
    ensures Rounds(s, n + 1, ProcessedState(t))
    decreases n
  {
    if n > 0 {
      RoundsMore(ProcessedState(s), n - 1, t);
    }
  }

  lemma SectorIs(block: nat)
    ensures Sector(block) == block * 2 % 0x1_0000_0000
  {
  }

  lemma SubmittedIs(s: State, i0: int, i1: int, i2: int, b: int, block: nat, write: bool)
    requires Shape(s) && IsIdx(i0) && IsIdx(i1) && IsIdx(i2) && 0 <= b < 64
    ensures var t := Submitted(s, i0, i1, i2, b, block, write);
      && t.free == s.free[i0 := false][i1 := false][i2 := false]
      && t.desc == s.desc[i0 := Desc(Header(write, Sector(block)), false, true, i1)]
                         [i1 := Desc(BufferData(b), !write, true, i2)][i2 := Desc(StatusByte(i0), true, false, 0)]
      && t.info == s.info[i0 := Info(b, 0)] && t.disk == s.disk[b := true] && t.data == s.data
      && t.avail == s.avail[s.availIdx % 8 := i0] && t.availIdx == (s.availIdx + 1) % 65536
      && t.flights == s.flights[i0 := Flight(s.posted, i1, i2, b, block, write, Posted)]
  {
    hide Sector;
  }

  lemma InvShape(s: State)
    requires Inv(s)
    ensures Shape(s)
  {
  }

  lemma ReapFacts(s: State, h: int)
    requires Inv(s) && CanReap(s, h)
    ensures Shape(s) && h in s.flights && Linked(s, h) && !s.free[h] && !s.free[s.flights[h].d1]
            && !s.free[s.flights[h].d2]
    ensures Inv(ReapedState(s, h))
    ensures s.flights[h].ticket in s.completions[..s.processed] && s.processed <= |s.completions|
    ensures 0 <= s.flights[h].buf < 64 && s.data[s.flights[h].buf] == OnMedium(s.store, Sector(s.flights[h].block))
  {
    assert Linked(s, h);
    assert Partition(s);
    hide Inv, Linked;
    ReapKeeps(s, h);
    ReturnsAfterOwnCompletion(s, h);
    DescriptorsArePartitioned(s, h, h);
    assert s.processed <= |s.completions| by { InvShapeHist(s); }
  }

  lemma InvShapeHist(s: State)
    requires Inv(s)
    ensures s.processed <= |s.completions|
  {
  }
}
