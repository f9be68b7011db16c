/** What the release loop of the transmit path does to raw descriptor memory
    (src/t7xx_hif_dpmaif_tx.c:80-151), and what that means when the memory holds a
    live window of the descriptor stream. */
module DrbRelease {
  import opened Ring
  import opened DrbStream

  datatype Raw = Raw(slots: seq<Slot>, rel: nat, budget: int, freed: seq<nat>)

  ghost predicate RawOk(n: RingSize, r: Raw) {
    |r.slots| == n && r.rel < n
  }

  /** A last-payload header without a buffer: the loop reports it and stays put. */
  predicate Stuck(r: Raw)
    requires r.rel < |r.slots|
  {
    r.slots[r.rel].EndsPacket() && r.slots[r.rel].skb.None?
  }

  function ReleaseOne(n: RingSize, r: Raw): (t: Raw)
    requires RawOk(n, r)
    ensures RawOk(n, t)
  {
    var s := r.slots[r.rel];
    if Stuck(r) then r
    else if s.DType() == DTYP_PD then
      Raw(r.slots[r.rel := s.(skb := None)], NextIdx(n, r.rel), r.budget + 1,
          r.freed + if !s.Cont() then [s.skb.value] else [])
    else r.(rel := NextIdx(n, r.rel), budget := r.budget + 1)
  }

  function ReleaseMany(n: RingSize, r: Raw, k: nat): (t: Raw)
    requires RawOk(n, r)
    ensures RawOk(n, t)
  {
    if k == 0 then r else ReleaseOne(n, ReleaseMany(n, r, k - 1))
  }

  /** min_not_zero */
  function MinNotZero(a: nat, b: nat): nat {
    if a == 0 then b else if b == 0 then a else if a <= b then a else b
  }

  // ----- releasing a live window -----

  /** The slots from one position to another hold that part of the stream. */
  ghost predicate Window(n: RingSize, slots: seq<Slot>, stream: seq<Slot>, from: nat, to: nat) {
    && |slots| == n && to <= |stream|
    && (forall c :: from <= c < to ==> slots[Idx(n, c)] == stream[c])
  }

  /** Outside the live window no slot owns a buffer. */
  ghost predicate Quiet(n: RingSize, slots: seq<Slot>, from: nat, to: nat) {
    && |slots| == n
    && (forall i :: 0 <= i < n ==> Live(n, from, to, i) || !EndsOwned(slots[i]))
  }

  /** The slots of the positions from one to another, read in ring order. */
  function InOrder(n: RingSize, slots: seq<Slot>, from: nat, to: nat): (r: seq<Slot>)
    requires |slots| == n && from <= to
    ensures |r| == to - from
  {
    seq(to - from, i requires 0 <= i < to - from => slots[Idx(n, from + i)])
  }

  lemma WindowInOrder(n: RingSize, slots: seq<Slot>, stream: seq<Slot>, from: nat, to: nat)
    requires Window(n, slots, stream, from, to) && from <= to
    ensures InOrder(n, slots, from, to) == stream[from..to]
  {
  }

  lemma LiveIdx(n: RingSize, from: nat, to: nat, c: nat)
    requires from <= c < from + n
    ensures Live(n, from, to, Idx(n, c)) <==> c < to
  {
    DistOfPositions(n, from, c);
  }

  /** Taking one position off the front of a window. */
  lemma LiveTail(n: RingSize, from: nat, to: nat, i: nat)
    requires from < to <= from + n && i < n
    ensures Live(n, from + 1, to, i) <==> Live(n, from, to, i) && i != Idx(n, from)
  {
    var c := PositionOf(n, from, i);
    DistOfPositions(n, from, c);
    if c > from {
      DistOfPositions(n, from + 1, c);
    } else {
      IdxAdd(n, from, 1);
    }
  }

  lemma ReleaseLiveOne(n: RingSize, r: Raw, stream: seq<Slot>, from: nat, to: nat)
    requires from < to < from + n && r.rel == Idx(n, from)
    requires Window(n, r.slots, stream, from, to) && Quiet(n, r.slots, from, to)
    requires WellMarked(stream[from])
    ensures RawOk(n, r) && !Stuck(r)
    ensures var t := ReleaseOne(n, r);
            && t.rel == Idx(n, from + 1) && t.budget == r.budget + 1
            && t.freed == r.freed + LastIds([stream[from]])
            && Window(n, t.slots, stream, from + 1, to) && Quiet(n, t.slots, from + 1, to)
            && (forall i :: 0 <= i < n && i != Idx(n, from) ==> t.slots[i] == r.slots[i])
  {
    var t := ReleaseOne(n, r);
    NextIdxOfPosition(n, from);
    LastIdsSnoc([], stream[from]);
    assert [] + [stream[from]] == [stream[from]];
    forall c | from + 1 <= c < to ensures t.slots[Idx(n, c)] == stream[c] {
      if Idx(n, c) == Idx(n, from) {
        IdxInjective(n, from, c, from);
      }
    }
    forall i | 0 <= i < n ensures Live(n, from + 1, to, i) || !EndsOwned(t.slots[i]) {
      LiveTail(n, from, to, i);
    }
  }

  /** The slots of the positions from one to another are the same in both rings. */
  ghost predicate SameAt(n: RingSize, a: seq<Slot>, b: seq<Slot>, from: nat, to: nat) {
    |a| == |b| == n && forall c :: from <= c < to ==> a[Idx(n, c)] == b[Idx(n, c)]
  }

  lemma SameAtStep(n: RingSize, a: seq<Slot>, b: seq<Slot>, c: seq<Slot>, from: nat, p: nat)
    requires from <= p < from + n && SameAt(n, a, b, p, from + n)
    requires |c| == n && forall i :: 0 <= i < n && i != Idx(n, p) ==> c[i] == b[i]
    ensures SameAt(n, a, c, p + 1, from + n)
  {
    forall q | p + 1 <= q < from + n ensures a[Idx(n, q)] == c[Idx(n, q)] {
      if Idx(n, q) == Idx(n, p) {
        IdxInjective(n, from, q, p);
      }
    }
  }

  /** Releasing k descriptors of a live window frees exactly the packets whose last
      descriptor is among them, in order, and leaves the rest of the window alone.
      The branch for a missing buffer is not reached. */
  lemma {:induction false} ReleaseLive(n: RingSize, r: Raw, stream: seq<Slot>, from: nat, to: nat, k: nat)
    requires from + k <= to < from + n && r.rel == Idx(n, from)
    requires Window(n, r.slots, stream, from, to) && Quiet(n, r.slots, from, to)
    requires forall c :: from <= c < to ==> WellMarked(stream[c])
    ensures RawOk(n, r)
    ensures var t := ReleaseMany(n, r, k);
            && t.rel == Idx(n, from + k) && t.budget == r.budget + k
            && t.freed == r.freed + LastIds(stream[from..from + k])
            && Window(n, t.slots, stream, from + k, to) && Quiet(n, t.slots, from + k, to)
            && SameAt(n, r.slots, t.slots, from + k, from + n)
  {
    hide WellMarked, ReleaseOne, Idx, Quiet, LastIds;
    if k == 0 {
      assert stream[from..from] == [];
      LastIdsSnoc([], BlankSlot);
    } else {
      ReleaseLive(n, r, stream, from, to, k - 1);
      var p := from + k - 1;
      var m := ReleaseMany(n, r, k - 1);
      ReleaseLiveOne(n, m, stream, p, to);
      assert stream[from..from + k] == stream[from..p] + [stream[p]];
      LastIdsSplit(stream[from..p], [stream[p]]);
      SameAtStep(n, r.slots, m.slots, ReleaseOne(n, m).slots, from, p);
      hide Window, SameAt;
    }
  }

  // ----- releasing when nothing is releasable -----

  lemma {:induction false} ReleaseManyBudget(n: RingSize, r: Raw, k: nat)
    requires RawOk(n, r)
    ensures ReleaseMany(n, r, k).budget >= r.budget
    ensures Stuck(r) ==> ReleaseMany(n, r, k) == r
    ensures !Stuck(r) && k > 0 ==> ReleaseMany(n, r, k).budget > r.budget
  {
    if k > 0 {
      ReleaseManyBudget(n, r, k - 1);
    }
  }

  /** With nothing to release, min_not_zero yields the whole budget. The call is
      harmless exactly when the release position stands on a last-payload header
      whose buffer is gone. */
  lemma ZeroReleaseExact(n: RingSize, r: Raw, budget: nat)
    requires RawOk(n, r) && budget > 0
    ensures MinNotZero(budget, 0) == budget
    ensures ReleaseMany(n, r, MinNotZero(budget, 0)) == r <==> Stuck(r)
  {
    ReleaseManyBudget(n, r, budget);
  }

  /** A ring of four with one packet of two descriptors that the hardware has not
      read: releasing with a count of zero frees the packet. */
  lemma ZeroReleaseFreesUnread()
    ensures var x := Sent(Buf(7, 0, 10, 10, []), [0], 0);
            var r := Raw(Frame(x) + [BlankSlot, BlankSlot], 0, 2, []);
            && RawOk(4, r) && Window(4, r.slots, Stream([x]), 0, 2)
            && ReleaseMany(4, r, MinNotZero(4, 0)).freed == [7]
  {
    var x := Sent(Buf(7, 0, 10, 10, []), [0], 0);
    var r := Raw(Frame(x) + [BlankSlot, BlankSlot], 0, 2, []);
    FrameShape(x, 0);
    FrameShape(x, 1);
    StreamSnoc([], x);
    assert Stream([x]) == Frame(x) by { assert [] + [x] == [x]; assert [] + Frame(x) == Frame(x); }
    assert r.slots[0] == Frame(x)[0] && r.slots[1] == Frame(x)[1] && r.slots[2] == BlankSlot;
    var r1 := ReleaseOne(4, r);
    assert r1 == r.(rel := 1, budget := 3);
    var r2 := ReleaseOne(4, r1);
    assert r2.rel == 2 && r2.freed == [7] && r2.slots[2] == BlankSlot;
    assert Stuck(r2);
    assert ReleaseMany(4, r, 0) == r;
    assert ReleaseMany(4, r, 1) == r1;
    assert ReleaseMany(4, r, 2) == r2;
    assert ReleaseMany(4, r, 3) == r2;
    assert ReleaseMany(4, r, 4) == r2;
  }

  // ----- writing reserved slots -----

  /** Storing a descriptor that ends no packet at a position past the window. */
  lemma StorePast(n: RingSize, slots: seq<Slot>, stream: seq<Slot>, from: nat, to: nat, p: nat, s: Slot)
    requires Window(n, slots, stream, from, to) && Quiet(n, slots, from, to)
    requires from <= to <= p < from + n && !EndsOwned(s)
    ensures var t := slots[Idx(n, p) := s]; Window(n, t, stream, from, to) && Quiet(n, t, from, to)
  {
    forall c | from <= c < to ensures Idx(n, c) != Idx(n, p) {
      if Idx(n, c) == Idx(n, p) {
        IdxInjective(n, from, c, p);
      }
    }
  }

  /** The reserved slots hold the beginning of a frame. */
  ghost predicate Built(n: RingSize, slots: seq<Slot>, p: nat, built: seq<Slot>) {
    |slots| == n && forall j :: p <= j < p + |built| ==> slots[Idx(n, j)] == built[j - p]
  }

  lemma BuiltFirst(n: RingSize, slots: seq<Slot>, p: nat, s: Slot)
    requires |slots| == n
    ensures Built(n, slots[Idx(n, p) := s], p, [s])
  {
  }

  lemma BuiltSnoc(n: RingSize, slots: seq<Slot>, p: nat, built: seq<Slot>, s: Slot)
    requires Built(n, slots, p, built) && |built| < n
    ensures Built(n, slots[Idx(n, p + |built|) := s], p, built + [s])
  {
    var e := p + |built|;
    forall j | p <= j < e ensures Idx(n, j) != Idx(n, e) {
      if Idx(n, j) == Idx(n, e) {
        IdxInjective(n, p, j, e);
      }
    }
  }

  lemma BuiltSame(n: RingSize, a: seq<Slot>, b: seq<Slot>, p: nat, built: seq<Slot>, from: nat)
    requires Built(n, a, p, built) && SameAt(n, a, b, from, p + |built|) && from <= p
    ensures Built(n, b, p, built)
  {
  }

  /** A finished frame extends the window. */
  lemma CommitFrame(n: RingSize, slots: seq<Slot>, last: Slot, stream: seq<Slot>, from: nat, built: seq<Slot>)
    requires from <= |stream| && |stream| + |built| < from + n
    requires Window(n, slots, stream, from, |stream|) && Quiet(n, slots, from, |stream|)
    requires Built(n, slots, |stream|, built)
    ensures var e := |stream| + |built|;
            var t := slots[Idx(n, e) := last];
            var all := stream + (built + [last]);
            Window(n, t, all, from, |all|) && Quiet(n, t, from, |all|)
  {
    var e := |stream| + |built|;
    var t := slots[Idx(n, e) := last];
    var all := stream + (built + [last]);
    BuiltSnoc(n, slots, |stream|, built, last);
    forall c | from <= c < |all| ensures t[Idx(n, c)] == all[c] {
      if c < |stream| && Idx(n, c) == Idx(n, e) {
        IdxInjective(n, from, c, e);
      }
    }
    forall i | 0 <= i < n ensures Live(n, from, |all|, i) || !EndsOwned(t[i]) {
      DistOfPositions(n, from, e);
    }
  }

  // ----- flushing -----

  /** The table read from the index of a position on, all the way round. */
  function Rotated(n: RingSize, slots: seq<Slot>, from: nat): (rot: seq<Slot>)
    requires |slots| == n
    ensures |rot| == n
  {
    slots[Idx(n, from)..] + slots[..Idx(n, from)]
  }

  lemma RotatedAt(n: RingSize, slots: seq<Slot>, from: nat, k: nat)
    requires |slots| == n && k < n
    ensures Rotated(n, slots, from)[k] == slots[Idx(n, from + k)]
  {
    IdxAdd(n, from, k);
  }

  lemma RotatedWindow(n: RingSize, slots: seq<Slot>, stream: seq<Slot>, from: nat, to: nat)
    requires Window(n, slots, stream, from, to) && Quiet(n, slots, from, to) && from <= to < from + n
    ensures LastIds(Rotated(n, slots, from)) == LastIds(stream[from..to])
  {
    hide LastIds, Rotated, Idx;
    var rot, w := Rotated(n, slots, from), to - from;
    forall k | 0 <= k < w ensures rot[k] == stream[from + k] {
      RotatedAt(n, slots, from, k);
    }
    assert rot[..w] == stream[from..to];
    forall k | 0 <= k < n - w ensures !EndsOwned(rot[w..][k]) {
      RotatedAt(n, slots, from, w + k);
      LiveIdx(n, from, to, from + w + k);
    }
    LastIdsNone(rot[w..]);
    LastIdsSplit(rot[..w], rot[w..]);
    assert rot == rot[..w] + rot[w..];
  }

  /** Scanning the whole table in index order meets the owners of exactly the
      live packets, if not in the order they were sent. */
  lemma FlushOwners(n: RingSize, slots: seq<Slot>, stream: seq<Slot>, from: nat, to: nat)
    requires Window(n, slots, stream, from, to) && Quiet(n, slots, from, to) && from <= to < from + n
    ensures multiset(LastIds(slots)) == multiset(LastIds(stream[from..to]))
  {
    hide LastIds;
    RotatedWindow(n, slots, stream, from, to);
    RotationOwners(slots, Idx(n, from));
  }

  lemma RotationOwners(slots: seq<Slot>, r: nat)
    requires r <= |slots|
    ensures multiset(LastIds(slots)) == multiset(LastIds(slots[r..] + slots[..r]))
  {
    hide LastIds;
    var a, b := slots[..r], slots[r..];
    LastIdsSplit(a, b);
    LastIdsSplit(b, a);
    SwapParts(LastIds(a), LastIds(b));
    assert slots == a + b;
  }

  lemma SwapParts(a: seq<nat>, b: seq<nat>)
    ensures multiset(a + b) == multiset(b + a)
  {
  }
}
