/**
 * The split virtqueue of kernel/dev/virtio.c (section 2.6 of Virtio 1.1) as a
 * machine whose steps are those of the driver, of the interrupt and of the
 * device. The device takes requests in ring order and completes them in any
 * order it likes.
 */
module Virtqueue {

  /** What a descriptor points to. */
  datatype Target = Nowhere | Header(write: bool, sector: nat) | BufferData(buf: int) | StatusByte(head: int)

  datatype Desc = Desc(addr: Target, deviceWrites: bool, hasNext: bool, next: int)

  /** disk.info: the buffer waiting for a chain (-1 for none) and its status byte. */
  datatype Info = Info(b: int, status: int)

  datatype Phase = Posted | Taken | Completed(c: nat) | Done

  /** A request under way: its number, the rest of its chain, and what it asks for. */
  datatype Flight = Flight(ticket: nat, d1: int, d2: int, buf: int, block: nat, write: bool, phase: Phase)

  datatype State = State(
    // the driver's memory
    free: seq<bool>, desc: seq<Desc>, avail: seq<int>, availIdx: nat, usedIdx: nat, info: seq<Info>,
    disk: seq<bool>, data: seq<int>,
    // the device's side: used ring, its place in the available ring, the medium
    elems: seq<int>, usedId: nat, devIdx: nat, store: map<nat, int>,
    // history
    flights: map<int, Flight>, owner: seq<int>, posted: nat, taken: nat, completions: seq<nat>, processed: nat,
    who: map<nat, int>)

  /** Sector number of a block: a 32-bit product. */
  function Sector(block: nat): nat {
    block * 2 % 0x1_0000_0000
  }

  function OnMedium(store: map<nat, int>, sector: nat): int {
    if sector in store then store[sector] else 0
  }

  // ---------- the invariant ----------

  ghost predicate Shape(s: State) {
    && |s.free| == 8 && |s.desc| == 8 && |s.avail| == 8 && |s.info| == 8 && |s.elems| == 8 && |s.owner| == 8
    && |s.disk| == 64 && |s.data| == 64
  }

  /** Indices on the rings are the true counts, cut to their width. */
  ghost predicate Counters(s: State) {
    && s.taken <= s.posted && s.processed <= |s.completions| <= s.taken
    && s.availIdx == s.posted % 65536 && s.devIdx == s.taken % 65536
    && s.usedId == |s.completions| % 65536 && s.usedIdx == s.processed % 8
  }

  /** A descriptor is free exactly when no chain owns it; an owned one is in its owner's chain. */
  ghost predicate Partition(s: State)
    requires Shape(s)
  {
    forall i :: 0 <= i < 8 ==>
      && (s.free[i] <==> s.owner[i] == -1)
      && (s.owner[i] != -1 ==> s.owner[i] in s.flights && InChain(s, s.owner[i], i))
  }

  ghost predicate InChain(s: State, h: int, i: int)
    requires h in s.flights
  {
    i == h || i == s.flights[h].d1 || i == s.flights[h].d2
  }

  ghost predicate IsIdx(i: int) { 0 <= i < 8 }

  /** Three distinct descriptors, linked, that tell the device what is asked. */
  ghost predicate Linked(s: State, h: int)
    requires Shape(s) && h in s.flights
  {
    var f := s.flights[h];
    && IsIdx(h) && IsIdx(f.d1) && IsIdx(f.d2) && h != f.d1 && h != f.d2 && f.d1 != f.d2
    && s.owner[h] == h && s.owner[f.d1] == h && s.owner[f.d2] == h
    && s.desc[h] == Desc(Header(f.write, Sector(f.block)), false, true, f.d1)
    && s.desc[f.d1] == Desc(BufferData(f.buf), !f.write, true, f.d2)
    && s.desc[f.d2] == Desc(StatusByte(h), true, false, 0)
  }

  /** The buffer of a request waits until its completion is processed; then it agrees with the medium. */
  ghost predicate BufferOk(s: State, h: int)
    requires Shape(s) && h in s.flights
  {
    var f := s.flights[h];
    && 0 <= f.buf < 64 && IsIdx(h) && s.info[h] == Info(f.buf, 0)
    && (s.disk[f.buf] <==> f.phase != Done)
    && (f.phase.Completed? || f.phase.Done? ==> s.data[f.buf] == OnMedium(s.store, Sector(f.block)))
  }

  /** Where a request stands, told by its number, the rings and the completions so far. */
  ghost predicate PhaseOk(s: State, h: int)
    requires Shape(s) && h in s.flights
  {
    var f := s.flights[h];
    match f.phase
    case Posted => s.taken <= f.ticket < s.posted && f.ticket !in s.completions
    case Taken => f.ticket < s.taken && f.ticket !in s.completions
    case Completed(c) => s.processed <= c < |s.completions| && s.completions[c] == f.ticket && f.ticket < s.taken
    case Done => s.processed <= |s.completions| && f.ticket in s.completions[..s.processed] && f.ticket < s.taken
  }

  /** Requests under way are for different buffers and different places on the medium. */
  ghost predicate Apart(s: State, h: int, k: int)
    requires h in s.flights && k in s.flights
  {
    h != k ==> s.flights[h].buf != s.flights[k].buf && Sector(s.flights[h].block) != Sector(s.flights[k].block)
               && s.flights[h].ticket != s.flights[k].ticket
  }

  /** What is in the available ring and not yet taken is what was posted and not yet taken. */
  ghost predicate AvailOk(s: State)
    requires Shape(s)
  {
    forall t :: s.taken <= t < s.posted ==>
      s.avail[t % 8] in s.flights && s.flights[s.avail[t % 8]].phase == Posted && s.flights[s.avail[t % 8]].ticket == t
  }

  ghost predicate UsedOk(s: State)
    requires Shape(s)
  {
    forall c :: s.processed <= c < |s.completions| ==>
      s.elems[c % 8] in s.flights && s.flights[s.elems[c % 8]].phase == Completed(c)
  }

  /** Each request completes at most once; one whose completion was not processed yet is under way. */
  ghost predicate HistoryOk(s: State) {
    && s.processed <= |s.completions|
    && (forall i, j :: 0 <= i < j < |s.completions| ==> s.completions[i] != s.completions[j])
    && (forall i :: 0 <= i < |s.completions| ==> s.completions[i] < s.taken)
    && (forall t: nat :: t in s.who <==> t < s.posted && t !in s.completions[..s.processed])
    && (forall t: nat :: t in s.who ==> s.who[t] in s.flights && s.flights[s.who[t]].ticket == t)
  }

  ghost predicate Inv(s: State) {
    && Shape(s) && Counters(s) && Partition(s)
    && (forall h :: h in s.flights ==> Linked(s, h))
    && (forall h :: h in s.flights ==> BufferOk(s, h))
    && (forall h :: h in s.flights ==> PhaseOk(s, h))
    && (forall h, k :: h in s.flights && k in s.flights ==> Apart(s, h, k))
    && AvailOk(s) && UsedOk(s) && HistoryOk(s)
  }

  // ---------- at most two requests under way ----------

  /** Three chains would take nine of the eight descriptors. */
  lemma ThreeAreTooMany(s: State, a: int, b: int, c: int)
    requires Inv(s) && a in s.flights && b in s.flights && c in s.flights
    ensures a == b || a == c || b == c
  {
    assert Linked(s, a) && Linked(s, b) && Linked(s, c);
    hide Inv, Partition, HistoryOk, AvailOk, UsedOk, BufferOk, PhaseOk, Apart;
    if a != b && a != c && b != c {
      var fa, fb, fc := s.flights[a], s.flights[b], s.flights[c];
      var all := [a, fa.d1, fa.d2, b, fb.d1, fb.d2, c, fc.d1, fc.d2];
      DistinctIdx(all);
    }
  }

  lemma DistinctIdx(all: seq<int>)
    requires forall i :: 0 <= i < |all| ==> 0 <= all[i] < 8
    requires forall i, j :: 0 <= i < j < |all| ==> all[i] != all[j]
    ensures |all| <= 8
  {
    var few: set<int> := {0, 1, 2, 3, 4, 5, 6, 7};
    InjectiveCount(all);
    SubsetSize(set i | 0 <= i < |all| :: all[i], few);
  }

  lemma InjectiveCount(all: seq<int>)
    requires forall i, j :: 0 <= i < j < |all| ==> all[i] != all[j]
    ensures |set i | 0 <= i < |all| :: all[i]| == |all|
  {
    if |all| > 0 {
      var n := |all| - 1;
      InjectiveCount(all[..n]);
      assert (set i | 0 <= i < |all| :: all[i]) == (set i | 0 <= i < n :: all[..n][i]) + {all[n]};
    }
  }

  lemma SubsetSize(a: set<int>, b: set<int>)
    requires a <= b
    ensures |a| <= |b|
  {
    assert b == a + (b - a);
  }

  lemma PostedBound(s: State)
    requires Inv(s)
    ensures s.posted - s.taken <= 2
  {
    hide Linked, BufferOk, PhaseOk, Apart, Partition, UsedOk, HistoryOk;
    if s.posted - s.taken > 2 {
      ThreeAreTooMany(s, s.avail[s.taken % 8], s.avail[(s.taken + 1) % 8], s.avail[(s.taken + 2) % 8]);
    }
  }

  lemma CompletedBound(s: State)
    requires Inv(s)
    ensures |s.completions| - s.processed <= 2
  {
    hide Linked, BufferOk, PhaseOk, Apart, Partition, AvailOk, HistoryOk;
    var p := s.processed;
    if |s.completions| - p > 2 {
      ThreeAreTooMany(s, s.elems[p % 8], s.elems[(p + 1) % 8], s.elems[(p + 2) % 8]);
    }
  }

  lemma Wrap(n: nat)
    ensures n % 65536 % 8 == n % 8
    ensures (n % 65536 + 1) % 65536 == (n + 1) % 65536 && (n % 8 + 1) % 8 == (n + 1) % 8
  {
  }

  lemma ModTwice(n: nat)
    ensures n % 8 % 8 == n % 8
  {
  }

  lemma NearMod(a: nat, b: nat)
    requires a <= b <= a + 2
    ensures a % 8 != b % 8 <==> a < b
    ensures a % 65536 != b % 65536 <==> a < b
  {
  }

  lemma CountersAre(s: State)
    requires Inv(s)
    ensures Counters(s)
  {
  }

  lemma UsedIsExact(s: State)
    requires Counters(s) && |s.completions| - s.processed <= 2
    ensures s.usedIdx % 8 != s.usedId % 8 <==> s.processed < |s.completions|
  {
    Wrap(|s.completions|);
    Wrap(s.processed);
    ModTwice(s.processed);
    NearMod(s.processed, |s.completions|);
  }

  lemma AvailIsExact(s: State)
    requires Counters(s) && s.posted - s.taken <= 2
    ensures s.devIdx != s.availIdx <==> s.taken < s.posted
  {
    NearMod(s.taken, s.posted);
  }

  lemma SlotsAreExact(s: State)
    requires Counters(s)
    ensures s.availIdx % 8 == s.posted % 8 && s.usedId % 8 == |s.completions| % 8 && s.devIdx % 8 == s.taken % 8
  {
    Wrap(s.posted);
    Wrap(s.taken);
    Wrap(|s.completions|);
  }

  /** The interrupt's comparison modulo 8 is exact, and so is every ring index across its 16-bit wrap. */
  lemma IndicesAreExact(s: State)
    requires Inv(s)
    ensures s.usedIdx % 8 != s.usedId % 8 <==> s.processed < |s.completions|
    ensures s.availIdx % 8 == s.posted % 8 && s.usedId % 8 == |s.completions| % 8 && s.devIdx % 8 == s.taken % 8
    ensures s.devIdx != s.availIdx <==> s.taken < s.posted
  {
    hide Inv, Counters;
    PostedBound(s);
    CompletedBound(s);
    CountersAre(s);
    UsedIsExact(s);
    AvailIsExact(s);
    SlotsAreExact(s);
  }

  // ---------- steps ----------

  /** virtio_disk_rw up to its wait, once three free descriptors were found. */
  ghost function Submitted(s: State, i0: int, i1: int, i2: int, b: int, block: nat, write: bool): State
    requires Shape(s) && IsIdx(i0) && IsIdx(i1) && IsIdx(i2) && 0 <= b < 64
  {
    s.(free := s.free[i0 := false][i1 := false][i2 := false],
       desc := s.desc[i0 := Desc(Header(write, Sector(block)), false, true, i1)]
                     [i1 := Desc(BufferData(b), !write, true, i2)][i2 := Desc(StatusByte(i0), true, false, 0)],
       info := s.info[i0 := Info(b, 0)], disk := s.disk[b := true],
       avail := s.avail[s.availIdx % 8 := i0], availIdx := (s.availIdx + 1) % 65536,
       flights := s.flights[i0 := Flight(s.posted, i1, i2, b, block, write, Posted)],
       owner := s.owner[i0 := i0][i1 := i0][i2 := i0], posted := s.posted + 1, who := s.who[s.posted := i0])
  }

  /** The caller holds the buffer's lock, and no request for its block is under way. */
  ghost predicate CanSubmit(s: State, i0: int, i1: int, i2: int, b: int, block: nat) {
    && Shape(s) && IsIdx(i0) && IsIdx(i1) && IsIdx(i2) && 0 <= b < 64
    && i0 != i1 && i0 != i2 && i1 != i2 && s.free[i0] && s.free[i1] && s.free[i2]
    && forall h :: h in s.flights ==> s.flights[h].buf != b && Sector(s.flights[h].block) != Sector(block)
  }

  /** The device takes the next entry of the available ring. */
  ghost predicate CanTake(s: State) {
    Shape(s) && s.devIdx != s.availIdx && s.avail[s.devIdx % 8] in s.flights
  }

  ghost function TakenState(s: State): State
    requires CanTake(s)
  {
    var h := s.avail[s.devIdx % 8];
    s.(devIdx := (s.devIdx + 1) % 65536, taken := s.taken + 1, flights := s.flights[h := s.flights[h].(phase := Taken)])
  }

  /** The device finishes any request it has taken: it moves the data and adds a used element. */
  ghost predicate CanComplete(s: State, h: int) {
    Shape(s) && h in s.flights && s.flights[h].phase == Taken && 0 <= s.flights[h].buf < 64
  }

  ghost function CompletedState(s: State, h: int): State
    requires CanComplete(s, h)
  {
    var f := s.flights[h];
    var place := Sector(f.block);
    s.(elems := s.elems[s.usedId % 8 := h], usedId := (s.usedId + 1) % 65536,
       store := if f.write then s.store[place := s.data[f.buf]] else s.store,
       data := if f.write then s.data else s.data[f.buf := OnMedium(s.store, place)],
       flights := s.flights[h := f.(phase := Completed(|s.completions|))], completions := s.completions + [f.ticket])
  }

  /** One round of the interrupt's loop. */
  ghost predicate CanProcess(s: State) {
    && Shape(s) && s.usedIdx < 8 && s.usedIdx % 8 != s.usedId % 8
    && IsIdx(s.elems[s.usedIdx]) && 0 <= s.info[s.elems[s.usedIdx]].b < 64 && s.elems[s.usedIdx] in s.flights
  }

  ghost function ProcessedState(s: State): State
    requires CanProcess(s)
  {
    var h := s.elems[s.usedIdx];
    s.(disk := s.disk[s.info[h].b := false], usedIdx := (s.usedIdx + 1) % 8, processed := s.processed + 1,
       flights := s.flights[h := s.flights[h].(phase := Done)], who := s.who - {s.flights[h].ticket})
  }

  /** virtio_disk_rw after its wait: the buffer's flag was seen clear. */
  ghost predicate CanReap(s: State, h: int) {
    && Shape(s) && h in s.flights && IsIdx(h) && IsIdx(s.flights[h].d1) && IsIdx(s.flights[h].d2)
    && 0 <= s.flights[h].buf < 64 && !s.disk[s.flights[h].buf]
  }

  ghost function ReapedState(s: State, h: int): State
    requires CanReap(s, h)
  {
    var d1, d2 := s.flights[h].d1, s.flights[h].d2;
    s.(info := s.info[h := s.info[h].(b := -1)], free := s.free[h := true][d1 := true][d2 := true],
       desc := s.desc[h := s.desc[h].(addr := Nowhere)]
            [d1 := s.desc[d1].(addr := Nowhere)][d2 := s.desc[d2].(addr := Nowhere)],
       flights := s.flights - {h}, owner := s.owner[h := -1][d1 := -1][d2 := -1])
  }

  /** The holder of a buffer's lock changes its bytes; it is not waiting for the disk then. */
  ghost predicate CanModify(s: State, b: int) {
    Shape(s) && 0 <= b < 64 && forall h :: h in s.flights ==> s.flights[h].buf != b
  }

  ghost function ModifiedState(s: State, b: int, v: int): State
    requires CanModify(s, b)
  {
    s.(data := s.data[b := v])
  }

  // ---------- every step keeps the invariant ----------

  ghost predicate Unused(s: State, i: int) {
    IsIdx(i) && i !in s.flights && forall h :: h in s.flights ==> i != s.flights[h].d1 && i != s.flights[h].d2
  }

  lemma FreeIsUnused(s: State, i: int)
    requires Inv(s) && IsIdx(i) && s.free[i]
    ensures Unused(s, i)
  {
    hide BufferOk, PhaseOk, Apart, AvailOk, UsedOk, HistoryOk;
    assert s.owner[i] == -1;
    assert forall h :: h in s.flights ==> Linked(s, h);
  }

  /** A submission, with what it relies on spelled out. */
  ghost predicate Submits(s: State, t: State, i0: int, i1: int, i2: int, b: int, block: nat, write: bool) {
    && CanSubmit(s, i0, i1, i2, b, block) && t == Submitted(s, i0, i1, i2, b, block, write)
    && Unused(s, i0) && Unused(s, i1) && Unused(s, i2) && s.posted - s.taken <= 2 && s.availIdx % 8 == s.posted % 8
    && Shape(t)
  }

  lemma SubmitLinked(s: State, t: State, i0: int, i1: int, i2: int, b: int, block: nat, write: bool, h: int)
    requires Submits(s, t, i0, i1, i2, b, block, write) && h in t.flights && (h in s.flights ==> Linked(s, h))
    ensures Linked(t, h)
  {
    hide Sector;
  }

  lemma SubmitBuffer(s: State, t: State, i0: int, i1: int, i2: int, b: int, block: nat, write: bool, h: int)
    requires Submits(s, t, i0, i1, i2, b, block, write) && h in t.flights && (h in s.flights ==> BufferOk(s, h))
    ensures BufferOk(t, h)
  {
    hide Sector;
  }

  lemma SubmitPhase(s: State, t: State, i0: int, i1: int, i2: int, b: int, block: nat, write: bool, h: int)
    requires Submits(s, t, i0, i1, i2, b, block, write) && h in t.flights && (h in s.flights ==> PhaseOk(s, h))
    requires HistoryOk(s) && Counters(s)
    ensures PhaseOk(t, h)
  {
    hide Sector;
  }

  lemma SubmitApart(s: State, t: State, i0: int, i1: int, i2: int, b: int, block: nat, write: bool, h: int, k: int)
    requires Submits(s, t, i0, i1, i2, b, block, write) && h in t.flights && k in t.flights && Counters(s)
    requires h in s.flights && k in s.flights ==> Apart(s, h, k)
    requires h in s.flights ==> PhaseOk(s, h)
    requires k in s.flights ==> PhaseOk(s, k)
    ensures Apart(t, h, k)
  {
    hide Sector;
  }

  lemma SubmitPartition(s: State, t: State, i0: int, i1: int, i2: int, b: int, block: nat, write: bool)
    requires Submits(s, t, i0, i1, i2, b, block, write) && Partition(s)
    ensures Partition(t)
  {
    hide Sector;
  }

  lemma OtherSlot(a: nat, b: nat)
    requires a < b <= a + 2
    ensures a % 8 != b % 8
  {
  }

  lemma SubmitAvail(s: State, t: State, i0: int, i1: int, i2: int, b: int, block: nat, write: bool)
    requires Submits(s, t, i0, i1, i2, b, block, write) && AvailOk(s)
    ensures AvailOk(t)
  {
    hide Sector;
    forall n | t.taken <= n < t.posted
      ensures t.avail[n % 8] in t.flights && t.flights[t.avail[n % 8]].phase == Posted
              && t.flights[t.avail[n % 8]].ticket == n
    {
      if n < s.posted {
        OtherSlot(n, s.posted);
        assert s.avail[n % 8] in s.flights;
      }
    }
  }

  lemma SubmitUsed(s: State, t: State, i0: int, i1: int, i2: int, b: int, block: nat, write: bool)
    requires Submits(s, t, i0, i1, i2, b, block, write) && UsedOk(s)
    ensures UsedOk(t)
  {
    hide Sector;
    forall c | t.processed <= c < |t.completions|
      ensures t.elems[c % 8] in t.flights && t.flights[t.elems[c % 8]].phase == Completed(c)
    {
      assert s.elems[c % 8] in s.flights;
    }
  }

  lemma SubmitRings(s: State, t: State, i0: int, i1: int, i2: int, b: int, block: nat, write: bool)
    requires Submits(s, t, i0, i1, i2, b, block, write) && AvailOk(s) && UsedOk(s) && Counters(s)
    ensures AvailOk(t) && UsedOk(t) && Counters(t)
  {
    SubmitAvail(s, t, i0, i1, i2, b, block, write);
    SubmitUsed(s, t, i0, i1, i2, b, block, write);
    hide Sector, AvailOk, UsedOk, Unused;
    Wrap(s.posted);
  }

  lemma SubmitHistory(s: State, t: State, i0: int, i1: int, i2: int, b: int, block: nat, write: bool)
    requires Submits(s, t, i0, i1, i2, b, block, write) && HistoryOk(s) && Counters(s)
    ensures HistoryOk(t)
  {
    hide Sector;
  }

  lemma SubmitKeeps(s: State, i0: int, i1: int, i2: int, b: int, block: nat, write: bool)
    requires Inv(s) && CanSubmit(s, i0, i1, i2, b, block)
    ensures Inv(Submitted(s, i0, i1, i2, b, block, write))
  {
    var t := Submitted(s, i0, i1, i2, b, block, write);
    FreeIsUnused(s, i0);
    FreeIsUnused(s, i1);
    FreeIsUnused(s, i2);
    IndicesAreExact(s);
    PostedBound(s);
    assert Submits(s, t, i0, i1, i2, b, block, write);
    hide Submits, Linked, BufferOk, PhaseOk, Apart, Partition, AvailOk, UsedOk, HistoryOk, Counters;
    forall h | h in t.flights ensures Linked(t, h) && BufferOk(t, h) && PhaseOk(t, h) {
      SubmitLinked(s, t, i0, i1, i2, b, block, write, h);
      SubmitBuffer(s, t, i0, i1, i2, b, block, write, h);
      SubmitPhase(s, t, i0, i1, i2, b, block, write, h);
    }
    forall h, k | h in t.flights && k in t.flights ensures Apart(t, h, k) {
      SubmitApart(s, t, i0, i1, i2, b, block, write, h, k);
    }
    SubmitPartition(s, t, i0, i1, i2, b, block, write);
    SubmitRings(s, t, i0, i1, i2, b, block, write);
    SubmitHistory(s, t, i0, i1, i2, b, block, write);
  }

  lemma StillApart(s: State, t: State, j: int, k: int)
    requires j in s.flights && k in s.flights && Apart(s, j, k) && j in t.flights && k in t.flights
    requires t.flights[j] == s.flights[j].(phase := t.flights[j].phase)
    requires t.flights[k] == s.flights[k].(phase := t.flights[k].phase)
    ensures Apart(t, j, k)
  {
  }

  // ---------- the device takes ----------

  ghost predicate Takes(s: State, t: State, h: int) {
    && CanTake(s) && t == TakenState(s) && s.taken < s.posted && s.devIdx % 8 == s.taken % 8
    && h == s.avail[s.taken % 8] && h in s.flights && s.flights[h].phase == Posted && s.flights[h].ticket == s.taken
  }

  lemma TakeFlight(s: State, t: State, h: int, k: int)
    requires Takes(s, t, h) && k in s.flights && Linked(s, k) && BufferOk(s, k) && PhaseOk(s, k) && Apart(s, h, k)
    ensures Linked(t, k) && BufferOk(t, k) && PhaseOk(t, k)
  {
  }

  lemma TakeRings(s: State, t: State, h: int)
    requires Takes(s, t, h) && Partition(s) && AvailOk(s) && UsedOk(s) && HistoryOk(s) && Counters(s)
    ensures Partition(t) && AvailOk(t) && UsedOk(t) && HistoryOk(t) && Counters(t)
  {
    Wrap(s.taken);
  }

  lemma TakeKeeps(s: State)
    requires Inv(s) && CanTake(s)
    ensures Inv(TakenState(s))
  {
    IndicesAreExact(s);
    assert Takes(s, TakenState(s), s.avail[s.taken % 8]);
    hide Takes, Linked, BufferOk, PhaseOk, Partition, AvailOk, UsedOk, HistoryOk, Counters;
    var t, h := TakenState(s), s.avail[s.taken % 8];
    forall k | k in t.flights ensures Linked(t, k) && BufferOk(t, k) && PhaseOk(t, k) {
      TakeFlight(s, t, h, k);
    }
    hide Apart;
    forall j, k | j in t.flights && k in t.flights ensures Apart(t, j, k) { StillApart(s, t, j, k); }
    TakeRings(s, t, h);
  }

  // ---------- the device completes ----------

  ghost predicate Completes(s: State, t: State, h: int) {
    && CanComplete(s, h) && t == CompletedState(s, h) && |s.completions| - s.processed <= 2
    && s.usedId % 8 == |s.completions| % 8
  }

  lemma CompleteFlight(s: State, t: State, h: int, k: int)
    requires Completes(s, t, h) && k in s.flights && Linked(s, k) && BufferOk(s, k) && PhaseOk(s, k) && Apart(s, h, k)
    requires s.processed <= |s.completions|
    ensures Linked(t, k) && BufferOk(t, k) && PhaseOk(t, k)
  {
    hide Sector;
    assert t.completions[..s.processed] == s.completions[..s.processed];
  }

  /** The number of a request that did not complete yet is one more than those of the completions before. */
  lemma CompleteHistory(s: State, t: State, h: int)
    requires Completes(s, t, h) && HistoryOk(s) && Counters(s) && PhaseOk(s, h)
    requires forall k :: k in s.flights && s.flights[k].ticket == s.flights[h].ticket ==> k == h
    ensures HistoryOk(t) && Counters(t)
  {
    assert t.completions[..s.processed] == s.completions[..s.processed];
    Wrap(|s.completions|);
    CompletedAreFewer(s, s.flights[h].ticket);
  }

  lemma CompletedAreFewer(s: State, ticket: nat)
    requires HistoryOk(s) && ticket < s.taken && ticket !in s.completions
    ensures |s.completions| < s.taken
  {
    var all := s.completions + [ticket];
    InjectiveNat(all, s.taken);
  }

  lemma {:induction false} InjectiveNat(all: seq<nat>, n: nat)
    requires forall i :: 0 <= i < |all| ==> all[i] < n
    requires forall i, j :: 0 <= i < j < |all| ==> all[i] != all[j]
    ensures |all| <= n
    decreases n
  {
    if |all| > 0 {
      assert all[0] < n;
      if n - 1 in all {
        var i :| 0 <= i < |all| && all[i] == n - 1;
        InjectiveNat(all[..i] + all[i + 1..], n - 1);
      } else {
        InjectiveNat(all, n - 1);
      }
    }
  }

  lemma CompleteRings(s: State, t: State, h: int)
    requires Completes(s, t, h) && Partition(s) && AvailOk(s) && UsedOk(s) && s.processed <= |s.completions|
    ensures Partition(t) && AvailOk(t) && UsedOk(t)
  {
  }

  lemma CompleteKeeps(s: State, h: int)
    requires Inv(s) && CanComplete(s, h)
    ensures Inv(CompletedState(s, h))
  {
    IndicesAreExact(s);
    CompletedBound(s);
    var t := CompletedState(s, h);
    assert Completes(s, t, h);
    hide Completes, Linked, BufferOk, PhaseOk, Partition, AvailOk, UsedOk, HistoryOk;
    forall k | k in t.flights ensures Linked(t, k) && BufferOk(t, k) && PhaseOk(t, k) {
      CompleteFlight(s, t, h, k);
    }
    hide Apart;
    forall j, k | j in t.flights && k in t.flights ensures Apart(t, j, k) { StillApart(s, t, j, k); }
    CompleteRings(s, t, h);
    CompleteHistory(s, t, h);
  }

  // ---------- the interrupt processes ----------

  ghost predicate Processes(s: State, t: State, h: int) {
    && CanProcess(s) && t == ProcessedState(s) && s.processed < |s.completions| && h == s.elems[s.usedIdx]
    && s.flights[h].phase == Completed(s.processed) && s.info[h].b == s.flights[h].buf
    && s.usedIdx == s.processed % 8
  }

  lemma ProcessFlight(s: State, t: State, h: int, k: int)
    requires Processes(s, t, h) && k in s.flights && Linked(s, k) && BufferOk(s, k) && PhaseOk(s, k) && Apart(s, h, k)
    requires PhaseOk(s, h)
    ensures Linked(t, k) && BufferOk(t, k) && PhaseOk(t, k)
  {
    hide Sector;
    assert t.completions[..s.processed + 1] == s.completions[..s.processed] + [s.completions[s.processed]];
  }

  lemma ProcessHistory(s: State, t: State, h: int)
    requires Processes(s, t, h) && HistoryOk(s) && Counters(s) && PhaseOk(s, h)
    ensures HistoryOk(t) && Counters(t)
  {
    assert t.completions[..s.processed + 1] == s.completions[..s.processed] + [s.completions[s.processed]];
    Wrap(s.processed);
  }

  lemma ProcessRings(s: State, t: State, h: int)
    requires Processes(s, t, h) && Partition(s) && AvailOk(s) && UsedOk(s)
    ensures Partition(t) && AvailOk(t) && UsedOk(t)
  {
  }

  /** What the interrupt finds in the used ring: a request that completed, with its buffer set and status 0. */
  lemma InterruptSees(s: State)
    requires Inv(s) && s.usedIdx % 8 != s.usedId % 8
    ensures CanProcess(s) && s.info[s.elems[s.usedIdx]].status == 0
    ensures s.processed < |s.completions| && Processes(s, ProcessedState(s), s.elems[s.usedIdx])
    ensures s.flights[s.elems[s.usedIdx]].ticket == s.completions[s.processed]
  {
    IndicesAreExact(s);
    hide HistoryOk, AvailOk, Partition, Linked, Apart;
    var h := s.elems[s.processed % 8];
    assert h in s.flights && BufferOk(s, h) && PhaseOk(s, h);
  }

  lemma ProcessKeeps(s: State)
    requires Inv(s) && CanProcess(s)
    ensures Inv(ProcessedState(s))
  {
    InterruptSees(s);
    var t, h := ProcessedState(s), s.elems[s.usedIdx];
    hide Processes, Linked, BufferOk, PhaseOk, Partition, AvailOk, UsedOk, HistoryOk;
    forall k | k in t.flights ensures Linked(t, k) && BufferOk(t, k) && PhaseOk(t, k) {
      ProcessFlight(s, t, h, k);
    }
    hide Apart;
    forall j, k | j in t.flights && k in t.flights ensures Apart(t, j, k) { StillApart(s, t, j, k); }
    ProcessRings(s, t, h);
    ProcessHistory(s, t, h);
  }

  // ---------- the caller returns ----------

  ghost predicate Reaps(s: State, t: State, h: int) {
    CanReap(s, h) && t == ReapedState(s, h) && Linked(s, h) && s.flights[h].phase == Done
  }

  /** virtio_disk_rw goes on only after its own completion was processed. */
  lemma ReturnsAfterOwnCompletion(s: State, h: int)
    requires Inv(s) && CanReap(s, h)
    ensures s.flights[h].phase == Done && s.flights[h].ticket in s.completions[..s.processed]
    ensures s.data[s.flights[h].buf] == OnMedium(s.store, Sector(s.flights[h].block))
  {
    hide HistoryOk, AvailOk, UsedOk, Partition, Linked, Apart;
    assert BufferOk(s, h) && PhaseOk(s, h);
  }

  lemma ReapFlight(s: State, t: State, h: int, k: int)
    requires Reaps(s, t, h) && k in s.flights && k != h && Linked(s, k) && BufferOk(s, k) && PhaseOk(s, k)
    ensures Linked(t, k) && BufferOk(t, k) && PhaseOk(t, k)
  {
    hide Sector;
  }

  lemma ReapPartition(s: State, t: State, h: int)
    requires Reaps(s, t, h) && Partition(s)
    ensures Partition(t)
  {
  }

  lemma ReapRings(s: State, t: State, h: int)
    requires Reaps(s, t, h) && AvailOk(s) && UsedOk(s) && HistoryOk(s) && PhaseOk(s, h) && Counters(s)
    ensures AvailOk(t) && UsedOk(t) && HistoryOk(t) && Counters(t)
  {
  }

  lemma ReapKeeps(s: State, h: int)
    requires Inv(s) && CanReap(s, h)
    ensures Inv(ReapedState(s, h))
  {
    ReturnsAfterOwnCompletion(s, h);
    var t := ReapedState(s, h);
    assert Reaps(s, t, h) by { assert Linked(s, h); }
    hide Reaps, Linked, BufferOk, PhaseOk, Partition, AvailOk, UsedOk, HistoryOk;
    forall k | k in t.flights ensures Linked(t, k) && BufferOk(t, k) && PhaseOk(t, k) {
      ReapFlight(s, t, h, k);
    }
    hide Apart;
    forall j, k | j in t.flights && k in t.flights ensures Apart(t, j, k) { StillApart(s, t, j, k); }
    ReapPartition(s, t, h);
    ReapRings(s, t, h);
  }

  lemma ModifyKeeps(s: State, b: int, v: int)
    requires Inv(s) && CanModify(s, b)
    ensures Inv(ModifiedState(s, b, v))
  {
    var t := ModifiedState(s, b, v);
    assert forall h :: h in t.flights ==> Linked(s, h) && BufferOk(s, h) && PhaseOk(s, h);
    assert forall h :: h in t.flights ==> Linked(t, h) && BufferOk(t, h) && PhaseOk(t, h);
    hide Linked, BufferOk, PhaseOk, Apart;
    forall j, k | j in t.flights && k in t.flights ensures Apart(t, j, k) { StillApart(s, t, j, k); }
  }

  // ---------- runs ----------

  datatype Action = Submit(i0: int, i1: int, i2: int, b: int, block: nat, write: bool) | Take | Complete(h: int)
                  | Process | Reap(h: int) | Modify(b: int, v: int) | Scratch(desc: seq<Desc>)

  /** A failed allocation may clear the address of descriptors that were and are free. */
  ghost predicate CanScratch(s: State, desc: seq<Desc>) {
    Shape(s) && |desc| == 8 && forall i :: 0 <= i < 8 && !s.free[i] ==> desc[i] == s.desc[i]
  }

  ghost predicate Step(s: State, a: Action, t: State) {
    match a
    case Submit(i0, i1, i2, b, block, write) => CanSubmit(s, i0, i1, i2, b, block)
        && t == Submitted(s, i0, i1, i2, b, block, write)
    case Take => CanTake(s) && t == TakenState(s)
    case Complete(h) => CanComplete(s, h) && t == CompletedState(s, h)
    case Process => CanProcess(s) && t == ProcessedState(s)
    case Reap(h) => CanReap(s, h) && t == ReapedState(s, h)
    case Modify(b, v) => CanModify(s, b) && t == ModifiedState(s, b, v)
    case Scratch(desc) => CanScratch(s, desc) && t == s.(desc := desc)
  }

  /** After virtio_disk_init. */
  ghost predicate Initial(s: State) {
    && Shape(s) && (forall i :: 0 <= i < 8 ==> s.free[i] && s.owner[i] == -1)
    && s.availIdx == 0 && s.usedIdx == 0 && s.usedId == 0 && s.devIdx == 0
    && s.flights == map[] && s.who == map[] && s.posted == 0 && s.taken == 0 && s.completions == [] && s.processed == 0
  }

  lemma InitialIsOk(s: State)
    requires Initial(s)
    ensures Inv(s)
  {
  }

  lemma ScratchKeeps(s: State, desc: seq<Desc>)
    requires Inv(s) && CanScratch(s, desc)
    ensures Inv(s.(desc := desc))
  {
    var t := s.(desc := desc);
    hide Sector;
    forall h | h in t.flights ensures Linked(t, h) && BufferOk(t, h) && PhaseOk(t, h) {
      assert Linked(s, h) && BufferOk(s, h) && PhaseOk(s, h);
    }
    hide Linked, BufferOk, PhaseOk, Apart;
    forall j, k | j in t.flights && k in t.flights ensures Apart(t, j, k) { StillApart(s, t, j, k); }
  }

  lemma StepKeeps(s: State, a: Action, t: State)
    requires Inv(s) && Step(s, a, t)
    ensures Inv(t)
  {
    hide Inv;
    match a
    case Submit(i0, i1, i2, b, block, write) => SubmitKeeps(s, i0, i1, i2, b, block, write);
    case Take => TakeKeeps(s);
    case Complete(h) => CompleteKeeps(s, h);
    case Process => ProcessKeeps(s);
    case Reap(h) => ReapKeeps(s, h);
    case Modify(b, v) => ModifyKeeps(s, b, v);
    case Scratch(desc) => ScratchKeeps(s, desc);
  }

  ghost predicate Run(states: seq<State>, actions: seq<Action>) {
    && |states| == |actions| + 1 && Initial(states[0])
    && forall i :: 0 <= i < |actions| ==> Step(states[i], actions[i], states[i + 1])
  }

  /** The invariant holds in every state of every run, whatever order the device completes requests in. */
  lemma {:induction false} RunsAreSafe(states: seq<State>, actions: seq<Action>, n: nat)
    requires Run(states, actions) && n < |states|
    ensures Inv(states[n])
  {
    hide Inv, Step;
    if n == 0 {
      InitialIsOk(states[0]);
    } else {
      RunsAreSafe(states, actions, n - 1);
      assert Step(states[n - 1], actions[n - 1], states[n - 1 + 1]);
      StepKeeps(states[n - 1], actions[n - 1], states[n]);
    }
  }

  // ---------- what the invariant means ----------

  /** At most two requests are under way, and the free descriptors are those of no chain: 8 = free + 3 per request. */
  lemma DescriptorsArePartitioned(s: State, h: int, i: int)
    requires Inv(s) && h in s.flights && IsIdx(i)
    ensures s.free[i] <==> forall k :: k in s.flights ==> !InChain(s, k, i)
    ensures forall k :: k in s.flights && k != h ==> forall j :: InChain(s, h, j) ==> !InChain(s, k, j)
    ensures !s.free[h] && !s.free[s.flights[h].d1] && !s.free[s.flights[h].d2]
    ensures h != s.flights[h].d1 && h != s.flights[h].d2 && s.flights[h].d1 != s.flights[h].d2
  {
    hide HistoryOk, AvailOk, UsedOk, Apart, BufferOk, PhaseOk, Sector;
    assert forall k :: k in s.flights ==> Linked(s, k);
  }

  /** The slot a submission writes holds no entry the device has still to take. */
  lemma SubmitKeepsPendingSlots(s: State, i0: int, i1: int, i2: int, b: int, block: nat, write: bool, t: nat)
    requires Inv(s) && CanSubmit(s, i0, i1, i2, b, block) && s.taken <= t < s.posted
    ensures Submitted(s, i0, i1, i2, b, block, write).avail[t % 8] == s.avail[t % 8]
    ensures s.avail[t % 8] in s.flights && s.flights[s.avail[t % 8]].ticket == t
  {
    hide HistoryOk, UsedOk, Apart, BufferOk, PhaseOk, Sector, Linked, Partition, Counters;
    PostedBound(s);
    IndicesAreExact(s);
    OtherSlot(t, s.posted);
  }

  lemma UnderWay(s: State, t: nat)
    requires HistoryOk(s) && t in s.who
    ensures exists h :: h in s.flights && s.flights[h].ticket == t
  {
    var h := s.who[t];
    assert h in s.flights && s.flights[h].ticket == t;
  }

  lemma NotUnderWay(s: State, t: nat)
    requires HistoryOk(s) && t < s.posted && forall h :: h in s.flights ==> s.flights[h].ticket != t
    ensures t in s.completions[..s.processed]
  {
    if t in s.who {
      UnderWay(s, t);
    }
  }

  /** Exactly one completion per request: none while it is under way at the device, one for ever after. */
  lemma OneCompletionEach(s: State, t: nat)
    requires Inv(s) && t < s.posted
    ensures forall i, j :: 0 <= i < |s.completions| && 0 <= j < |s.completions| ==>
              s.completions[i] == t && s.completions[j] == t ==> i == j
    ensures (forall h :: h in s.flights ==> s.flights[h].ticket != t) ==> t in s.completions[..s.processed]
    ensures forall h :: h in s.flights && s.flights[h].ticket == t ==>
              (t in s.completions[..s.processed] <==> s.flights[h].phase == Done)
  {
    hide AvailOk, UsedOk, Apart, BufferOk, Linked, Partition;
    if forall h :: h in s.flights ==> s.flights[h].ticket != t {
      NotUnderWay(s, t);
    }
    forall h | h in s.flights && s.flights[h].ticket == t
      ensures t in s.completions[..s.processed] <==> s.flights[h].phase == Done
    {
      assert PhaseOk(s, h);
      if s.flights[h].phase.Completed? {
        NotAmongFirst(s, s.flights[h].phase.c, s.processed);
      }
    }
  }

  lemma NotAmongFirst(s: State, c: nat, n: nat)
    requires HistoryOk(s) && n <= c < |s.completions|
    ensures s.completions[c] !in s.completions[..n]
  {
  }

  /** No request is ever stuck: as long as one is under way, the device, the interrupt or its caller can go on. */
  lemma SomethingCanHappen(s: State, h: int)
    requires Inv(s) && h in s.flights
    ensures match s.flights[h].phase
            case Posted => CanTake(s)
            case Taken => CanComplete(s, h)
            case Completed(_) => CanProcess(s)
            case Done => CanReap(s, h)
  {
    IndicesAreExact(s);
    assert PhaseOk(s, h) && BufferOk(s, h) && Linked(s, h);
    hide HistoryOk, Apart, Partition;
    if s.flights[h].phase.Completed? { InterruptSees(s); }
  }

  /** With nothing under way every descriptor is free, so a waiting caller can submit. */
  lemma AllFreeWhenIdle(s: State)
    requires Inv(s) && s.flights == map[]
    ensures forall i :: 0 <= i < 8 ==> s.free[i]
  {
    hide HistoryOk, AvailOk, UsedOk;
    assert forall i :: 0 <= i < 8 ==> s.owner[i] !in s.flights;
  }

  // ---------- the data arrives ----------

  /** What the device reads along the chain of a request. */
  lemma DeviceSees(s: State, h: int)
    requires Inv(s) && h in s.flights
    ensures |s.desc| == 8 && IsIdx(h) && IsIdx(s.desc[h].next) && IsIdx(s.desc[s.desc[h].next].next)
    ensures var f := s.flights[h]; var d1 := s.desc[h].next; var d2 := s.desc[d1].next;
      && s.desc[h].addr == Header(f.write, f.block * 2 % 0x1_0000_0000) && !s.desc[h].deviceWrites && s.desc[h].hasNext
      && s.desc[d1].addr == BufferData(f.buf) && s.desc[d1].deviceWrites == !f.write && s.desc[d1].hasNext
      && s.desc[d2].addr == StatusByte(h) && s.desc[d2].deviceWrites && !s.desc[d2].hasNext
      && h != d1 && h != d2 && d1 != d2
  {
    assert Linked(s, h);
  }

  /** A request that stays under way keeps what it asks for, and nothing it depends on changes under it. */
  lemma FlightStep(s: State, a: Action, t: State, h: int)
    requires Inv(s) && Step(s, a, t) && h in s.flights && h in t.flights && t.flights[h].ticket == s.flights[h].ticket
    ensures |s.data| == 64 && |t.data| == 64 && 0 <= s.flights[h].buf < 64
    ensures var f := s.flights[h];
      && t.flights[h] == f.(phase := t.flights[h].phase)
      && (f.write ==> t.data[f.buf] == s.data[f.buf])
      && (!f.write ==> OnMedium(t.store, Sector(f.block)) == OnMedium(s.store, Sector(f.block)))
  {
    assert BufferOk(s, h) && PhaseOk(s, h) && Counters(s) && Shape(s);
    assert s.flights[h].ticket < s.posted;
    if a.Complete? { assert Apart(s, h, a.h); }
    hide Inv, Partition, AvailOk, UsedOk, HistoryOk, Linked, BufferOk, Apart, Sector;
  }

  /** Request `ticket` is under way as it was submitted, and its buffer or its place on the medium is untouched. */
  ghost predicate Carried(s: State, t: State, h: int, ticket: nat, b: int, block: nat, write: bool) {
    && 0 <= b < 64 && |s.data| == 64 && |t.data| == 64 && h in t.flights && t.flights[h].ticket == ticket
    && t.flights[h].buf == b && t.flights[h].block == block && t.flights[h].write == write
    && (write ==> t.data[b] == s.data[b])
    && (!write ==> OnMedium(t.store, Sector(block)) == OnMedium(s.store, Sector(block)))
  }

  /** Request `ticket`, submitted at `i` with head `h`, is under way up to state `k`. */
  ghost predicate UnderWayTo(states: seq<State>, i: nat, k: nat, h: int, ticket: nat) {
    k < |states| && forall j {:trigger states[j]} :: i < j <= k ==>
      h in states[j].flights && states[j].flights[h].ticket == ticket
  }

  lemma {:induction false} CarriedTo(states: seq<State>, actions: seq<Action>, i: nat, k: nat,
                                     i0: int, i1: int, i2: int, b: int, block: nat, write: bool)
    requires Run(states, actions) && i < k < |states| && actions[i] == Submit(i0, i1, i2, b, block, write)
    requires UnderWayTo(states, i, k, i0, states[i].posted)
    ensures Carried(states[i], states[k], i0, states[i].posted, b, block, write)
  {
    hide Inv, Step, Sector, Carried, UnderWayTo;
    RunsAreSafe(states, actions, k - 1);
    assert Step(states[k - 1], actions[k - 1], states[k - 1 + 1]);
    if k == i + 1 {
      Started(states[i], states[k], i0, i1, i2, b, block, write);
    } else {
      assert UnderWayTo(states, i, k - 1, i0, states[i].posted) by { Before(states, i, k, i0, states[i].posted); }
      CarriedTo(states, actions, i, k - 1, i0, i1, i2, b, block, write);
      Before(states, i, k, i0, states[i].posted);
      CarryOn(states[i], states[k - 1], actions[k - 1], states[k], i0, states[i].posted, b, block, write);
    }
  }

  lemma Before(states: seq<State>, i: nat, k: nat, h: int, ticket: nat)
    requires UnderWayTo(states, i, k, h, ticket) && i + 1 < k
    ensures UnderWayTo(states, i, k - 1, h, ticket)
    ensures h in states[k].flights && states[k].flights[h].ticket == ticket
  {
  }

  lemma CarryOn(s0: State, s: State, a: Action, t: State, h: int, ticket: nat, b: int, block: nat, write: bool)
    requires Inv(s) && Step(s, a, t) && Carried(s0, s, h, ticket, b, block, write)
    requires h in t.flights && t.flights[h].ticket == ticket
    ensures Carried(s0, t, h, ticket, b, block, write)
  {
    hide Inv, Step, Sector;
    FlightStep(s, a, t, h);
  }

  lemma Started(s: State, t: State, i0: int, i1: int, i2: int, b: int, block: nat, write: bool)
    requires Step(s, Submit(i0, i1, i2, b, block, write), t)
    ensures Carried(s, t, i0, s.posted, b, block, write)
  {
    hide Sector;
  }

  /**
   * Once a request has completed, the medium holds what the buffer held when a
   * write was submitted, and after a read the buffer holds what was there on
   * the medium.
   */
  lemma DataArrives(states: seq<State>, actions: seq<Action>, i: nat, k: nat,
                    i0: int, i1: int, i2: int, b: int, block: nat, write: bool)
    requires Run(states, actions) && i < k < |states| && actions[i] == Submit(i0, i1, i2, b, block, write)
    requires UnderWayTo(states, i, k, i0, states[i].posted) && i0 in states[k].flights
    requires states[k].flights[i0].phase.Completed? || states[k].flights[i0].phase.Done?
    ensures 0 <= b < 64 && |states[i].data| == 64 && |states[k].data| == 64
    ensures var place := block * 2 % 0x1_0000_0000;
      && (write ==> OnMedium(states[k].store, place) == states[i].data[b])
      && (!write ==> states[k].data[b] == OnMedium(states[i].store, place) == OnMedium(states[k].store, place))
  {
    RunsAreSafe(states, actions, k);
    CarriedTo(states, actions, i, k, i0, i1, i2, b, block, write);
    assert BufferOk(states[k], i0);
    hide Inv, Run, UnderWayTo;
  }

  /** The device takes requests in the order of their submission. */
  lemma TakesInOrder(s: State)
    requires Inv(s) && CanTake(s)
    ensures var h := s.avail[s.devIdx % 8];
      && s.flights[h].ticket == s.taken && s.flights[h].phase == Posted
      && TakenState(s).flights == s.flights[h := s.flights[h].(phase := Taken)]
  {
    IndicesAreExact(s);
    hide Linked, BufferOk, PhaseOk, Apart, Partition, UsedOk, HistoryOk;
  }
}
