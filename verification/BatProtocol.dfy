/** The buffer (BAT) ring of the receive path as a protocol between threads
    (src/t7xx_hif_dpmaif_rx.c): receive polls take buffers out of order and mark
    them in a bitmap, one worker counts, releases in order and refills. Positions
    are unbounded counters; slot index = position modulo the ring size. */
module BatProtocol {
  import opened Ring

  const BAT_CNT_THRESHOLD := 30

  /** The recorded socket buffer of a slot; buffers are numbered as allocated. */
  datatype Slot = Empty | Holds(skb: nat)

  /** Where the release worker stands. */
  datatype Phase =
    | Idle
    | Counted(cnt: nat)
    | Refilling(want: nat, filled: nat)

  datatype State = State(
    n: RingSize,
    written: nat,        // bat_wr_idx == Idx(n, written)
    released: nat,       // bat_release_rd_idx == Idx(n, released)
    mask: seq<bool>,     // bat_bitmap
    slots: seq<Slot>,    // bat_skb
    phase: Phase,
    marking: set<nat>,   // slots emptied by a poll whose bitmap bit is not set yet
    nextSkb: nat,        // buffers allocated so far
    handed: seq<nat>)    // buffers handed up by polls, in order
  {
    /** One past the last position given a buffer, published or not. */
    function End(): nat {
      written + if phase.Refilling? then phase.filled else 0
    }

    ghost predicate InWindow(i: nat)
      requires i < n
    {
      Live(n, released, End(), i)
    }
  }

  datatype Action =
    | Take(bid: nat, fits: bool)  // poll: check the reported buffer id, empty its slot
    | Mark(bid: nat)              // poll: set the bitmap bit
    | Count(cnt: nat)             // worker: length of the run of set bits
    | Release(hwRd: nat)          // worker: validate, clear the bits, advance
    | Refill(gotSkb: bool)     // worker: one more slot
    | Publish                     // worker: advance the write index

  // ----- the steps -----

  /** r is the length of the longest circular run of set bits from start. */
  ghost predicate IsRun(n: RingSize, mask: seq<bool>, start: nat, r: nat)
    requires |mask| == n
  {
    && r <= n
    && (forall c :: start <= c < start + r ==> mask[Idx(n, c)])
    && (r < n ==> !mask[Idx(n, start + r)])
  }

  /** The index comparisons of t7xx_dpmaif_release_bat_entry. */
  predicate ReleaseAccepts(n: nat, relIdx: nat, hwRd: nat, cnt: nat) {
    var newRel := relIdx + cnt;
    && !(hwRd >= relIdx && newRel > hwRd)
    && !(newRel >= n && newRel - n > hwRd)
  }

  ghost function Apply(s: State, a: Action): (t: State)
    requires Shape(s)
    ensures Shape(t) && t.n == s.n
  {
    match a
    case Take(bid, fits) =>
      if bid < s.n && s.slots[bid].Holds? && fits then
        s.(slots := s.slots[bid := Empty], marking := s.marking + {bid},
           handed := s.handed + [s.slots[bid].skb])
      else s
    case Mark(bid) =>
      if bid in s.marking && bid < s.n then
        s.(mask := s.mask[bid := true], marking := s.marking - {bid})
      else s
    case Count(cnt) =>
      if s.phase.Idle? && cnt >= BAT_CNT_THRESHOLD && IsRun(s.n, s.mask, s.released, cnt)
      then s.(phase := Counted(cnt)) else s
    case Release(hwRd) =>
      if !s.phase.Counted? then s
      else if 0 < s.phase.cnt < s.n && Idx(s.n, s.written) != Idx(s.n, s.released)
              && ReleaseAccepts(s.n, Idx(s.n, s.released), hwRd, s.phase.cnt) then
        s.(mask := Cleared(s.n, s.mask, s.released, s.phase.cnt),
           released := s.released + s.phase.cnt, phase := Refilling(s.phase.cnt, 0))
      else s.(phase := Idle)
    case Refill(gotSkb) =>
      if !s.phase.Refilling? || s.phase.filled >= s.phase.want then s
      else
        var i := Idx(s.n, s.written + s.phase.filled);
        var grown := s.(phase := s.phase.(filled := s.phase.filled + 1));
        if s.slots[i].Holds? then grown
        else if gotSkb then
          grown.(slots := s.slots[i := Holds(s.nextSkb)], nextSkb := s.nextSkb + 1)
        else s
    case Publish =>
      if s.phase.Refilling? then s.(written := s.End(), phase := Idle) else s
  }

  /** The bitmap with cnt bits cleared from a position on. */
  function Cleared(n: RingSize, mask: seq<bool>, start: nat, cnt: nat): (r: seq<bool>)
    requires |mask| == n
    ensures |r| == n
  {
    seq(n, i requires 0 <= i < n => mask[i] && Dist(n, Idx(n, start), i) >= cnt)
  }

  ghost predicate Shape(s: State) {
    |s.mask| == |s.slots| == s.n
  }

  ghost function Run(s: State, acts: seq<Action>): State
    requires Shape(s)
    ensures Shape(Run(s, acts)) && Run(s, acts).n == s.n
  {
    if acts == [] then s
    else Apply(Run(s, acts[..|acts| - 1]), acts[|acts| - 1])
  }

  /** First start (src/t7xx_hif_dpmaif.c:327-329): nothing held, n - 1 slots to fill. */
  function Init(n: RingSize): State {
    State(n, 0, 0, seq(n, _ => false), seq(n, _ => Empty), Refilling(n - 1, 0), {}, 0, [])
  }

  // ----- the invariant -----

  /** A slot records a buffer exactly when it is in the window from the release
      position to the end of what was filled and nobody has taken it; bits are
      set in the window only. */
  ghost predicate Owned(n: RingSize, base: nat, end: nat, mask: seq<bool>, slots: seq<Slot>, marking: set<nat>)
    requires |mask| == |slots| == n
  {
    && (forall i :: 0 <= i < n ==>
          (slots[i].Holds? <==> Live(n, base, end, i) && !mask[i] && i !in marking))
    && (forall i :: 0 <= i < n && mask[i] ==> Live(n, base, end, i))
    && (forall i :: i in marking ==> i < n && Live(n, base, end, i) && !mask[i])
  }

  ghost predicate Ownership(s: State)
    requires Shape(s)
  {
    Owned(s.n, s.released, s.End(), s.mask, s.slots, s.marking)
  }

  ghost predicate PhaseOk(s: State)
    requires Shape(s)
  {
    && s.released <= s.written
    && match s.phase
       case Idle => s.written - s.released <= s.n - 1
       case Counted(cnt) =>
         && s.written - s.released <= s.n - 1
         && 0 < cnt <= s.n
         && forall c :: s.released <= c < s.released + cnt ==> s.mask[Idx(s.n, c)]
       case Refilling(want, filled) =>
         filled <= want && s.written + want - s.released <= s.n - 1
  }

  ghost predicate Accounted(slots: seq<Slot>, handed: seq<nat>, b: nat) {
    b in handed || Holds(b) in slots
  }

  /** Every buffer ever allocated sits in exactly one slot or was handed up once. */
  ghost predicate Conserved(slots: seq<Slot>, handed: seq<nat>, nextSkb: nat) {
    && (forall i :: 0 <= i < |slots| && slots[i].Holds? ==>
          slots[i].skb < nextSkb && slots[i].skb !in handed)
    && (forall i, j :: 0 <= i < j < |slots| && slots[i].Holds? && slots[j].Holds? ==>
          slots[i].skb != slots[j].skb)
    && (forall i, j :: 0 <= i < j < |handed| ==> handed[i] != handed[j])
    && (forall b :: b in handed ==> b < nextSkb)
    && (forall b: nat :: b < nextSkb ==> Accounted(slots, handed, b))
  }

  ghost predicate Inv(s: State) {
    Shape(s) && Ownership(s) && PhaseOk(s) && Conserved(s.slots, s.handed, s.nextSkb)
  }

  // ----- step lemmas -----

  lemma InitInv(n: RingSize)
    ensures Inv(Init(n))
  {
  }

  lemma TakeInv(s: State, bid: nat, fits: bool)
    requires Inv(s)
    ensures Inv(Apply(s, Take(bid, fits)))
  {
    if bid < s.n && s.slots[bid].Holds? && fits {
      var t := Apply(s, Take(bid, fits));
      forall b: nat | b < t.nextSkb ensures Accounted(t.slots, t.handed, b) {
        assert Accounted(s.slots, s.handed, b);
        if b == s.slots[bid].skb {
          assert t.handed[|s.handed|] == b;
        } else if b in s.handed {
          assert b in t.handed;
        } else {
          var i :| 0 <= i < s.n && s.slots[i] == Holds(b);
          assert t.slots[i] == Holds(b);
        }
      }
    }
  }

  lemma MarkInv(s: State, bid: nat)
    requires Inv(s)
    ensures Inv(Apply(s, Mark(bid)))
  {
  }

  /** A run of set bits never leaves the window. */
  lemma RunInsideWindow(s: State, cnt: nat)
    requires Inv(s) && !s.phase.Refilling? && cnt <= s.n
    requires forall c :: s.released <= c < s.released + cnt ==> s.mask[Idx(s.n, c)]
    ensures cnt <= s.written - s.released
  {
    DistOfPositions(s.n, s.released, s.written);
    assert !s.InWindow(Idx(s.n, s.written));
  }

  lemma CountInv(s: State, cnt: nat)
    requires Inv(s)
    ensures Inv(Apply(s, Count(cnt)))
  {
  }

  /** Moving the window start: membership after releasing cnt positions. */
  lemma DistAfterRelease(n: RingSize, released: nat, cnt: nat, i: nat)
    requires cnt <= n && i < n
    ensures var d := Dist(n, Idx(n, released), i);
            Dist(n, Idx(n, released + cnt), i) == if cnt <= d then d - cnt else d - cnt + n
  {
    IdxAdd(n, released, cnt);
  }

  lemma ReleaseWindow(s: State, t: State, i: nat)
    requires Inv(s) && s.phase.Counted? && i < s.n && s.phase.cnt <= s.written - s.released
    requires t.n == s.n && t.End() == s.End() && t.released == s.released + s.phase.cnt
    ensures t.InWindow(i) <==> s.InWindow(i) && Dist(s.n, Idx(s.n, s.released), i) >= s.phase.cnt
    ensures Dist(s.n, Idx(s.n, s.released), i) < s.phase.cnt ==> s.mask[i]
  {
    DistAfterRelease(s.n, s.released, s.phase.cnt, i);
    var c := PositionOf(s.n, s.released, i);
    assert s.released <= c < s.released + s.phase.cnt ==> s.mask[Idx(s.n, c)];
  }

  lemma ReleaseInv(s: State, hwRd: nat)
    requires Inv(s)
    ensures Inv(Apply(s, Release(hwRd)))
  {
    var t := Apply(s, Release(hwRd));
    if s.phase.Counted? && t.phase.Refilling? {
      RunInsideWindow(s, s.phase.cnt);
      forall i | 0 <= i < s.n
        ensures t.InWindow(i) <==> s.InWindow(i) && Dist(s.n, Idx(s.n, s.released), i) >= s.phase.cnt
        ensures Dist(s.n, Idx(s.n, s.released), i) < s.phase.cnt ==> s.mask[i]
      {
        ReleaseWindow(s, t, i);
      }
    }
  }

  /** The slot a refill targets is empty: refilling never replaces a buffer. */
  lemma RefillTargetEmpty(s: State)
    requires Inv(s) && s.phase.Refilling? && s.phase.filled < s.phase.want
    ensures s.slots[Idx(s.n, s.End())] == Empty && !s.mask[Idx(s.n, s.End())] && Idx(s.n, s.End()) !in s.marking
    ensures !s.InWindow(Idx(s.n, s.End()))
  {
    DistOfPositions(s.n, s.released, s.End());
  }

  lemma RefillWindow(s: State, i: nat)
    requires Inv(s) && s.phase.Refilling? && s.phase.filled < s.phase.want && i < s.n
    ensures Live(s.n, s.released, s.End() + 1, i) <==> s.InWindow(i) || i == Idx(s.n, s.End())
  {
    var c := PositionOf(s.n, s.released, i);
    DistOfPositions(s.n, s.released, s.End());
    assert c == s.End() ==> i == Idx(s.n, s.End());
  }

  lemma RefillConserves(s: State)
    requires Inv(s) && s.phase.Refilling? && s.phase.filled < s.phase.want
    ensures var e := Idx(s.n, s.End());
            Conserved(s.slots[e := Holds(s.nextSkb)], s.handed, s.nextSkb + 1)
  {
    RefillTargetEmpty(s);
    var e := Idx(s.n, s.End());
    var slots := s.slots[e := Holds(s.nextSkb)];
    forall b: nat | b < s.nextSkb + 1 ensures Accounted(slots, s.handed, b) {
      if b == s.nextSkb {
        assert slots[e] == Holds(b);
      } else if b !in s.handed {
        assert Accounted(s.slots, s.handed, b);
        var i :| 0 <= i < s.n && s.slots[i] == Holds(b);
        assert slots[i] == Holds(b);
      }
    }
  }

  lemma RefillInv(s: State, gotSkb: bool)
    requires Inv(s)
    ensures Inv(Apply(s, Refill(gotSkb)))
  {
    hide Idx, IsRun, Cleared;
    if s.phase.Refilling? && s.phase.filled < s.phase.want {
      RefillTargetEmpty(s);
      if gotSkb {
        RefillConserves(s);
        forall i | 0 <= i < s.n
          ensures Live(s.n, s.released, s.End() + 1, i) <==> s.InWindow(i) || i == Idx(s.n, s.End())
        {
          RefillWindow(s, i);
        }
        hide Conserved;
      }
    }
  }

  lemma PublishInv(s: State)
    requires Inv(s)
    ensures Inv(Apply(s, Publish))
  {
  }

  lemma ApplyInv(s: State, a: Action)
    requires Inv(s)
    ensures Inv(Apply(s, a))
  {
    match a
    case Take(bid, fits) => TakeInv(s, bid, fits);
    case Mark(bid) => MarkInv(s, bid);
    case Count(cnt) => CountInv(s, cnt);
    case Release(hwRd) => ReleaseInv(s, hwRd);
    case Refill(gotSkb) => RefillInv(s, gotSkb);
    case Publish => PublishInv(s);
  }

  // ----- whole runs -----

  /** Ownership and conservation hold in every state any interleaving of polls,
      worker steps and hardware reports can reach, whatever buffer ids and read
      indices the hardware reports and whatever allocations fail. */
  lemma {:induction false} RunInv(s: State, acts: seq<Action>)
    requires Inv(s)
    ensures Inv(Run(s, acts))
  {
    if acts != [] {
      RunInv(s, acts[..|acts| - 1]);
      ApplyInv(Run(s, acts[..|acts| - 1]), acts[|acts| - 1]);
    }
  }

  lemma RunSnoc(s: State, acts: seq<Action>, a: Action)
    requires Shape(s)
    ensures Run(s, []) == s
    ensures Run(s, acts + [a]) == Apply(Run(s, acts), a)
  {
    assert (acts + [a])[..|acts|] == acts;
  }

  lemma {:induction false} RunAppend(s: State, a: seq<Action>, b: seq<Action>)
    requires Shape(s)
    ensures Run(s, a + b) == Run(Run(s, a), b)
  {
    if b == [] {
      assert a + b == a;
    } else {
      RunAppend(s, a, b[..|b| - 1]);
      assert (a + b)[..|a + b| - 1] == a + b[..|b| - 1];
    }
  }

  /** No buffer reaches the stack twice, and none is lost: in every reachable
      state the buffers handed up are distinct, and each allocated buffer that
      was not handed up is recorded by a slot of the window. */
  lemma HandedOnce(n: RingSize, acts: seq<Action>)
    ensures var s := Run(Init(n), acts);
            && (forall i, j :: 0 <= i < j < |s.handed| ==> s.handed[i] != s.handed[j])
            && (forall b: nat :: b < s.nextSkb && b !in s.handed ==>
                  exists i :: 0 <= i < n && s.slots[i] == Holds(b) && s.InWindow(i) && !s.mask[i])
  {
    InitInv(n);
    RunInv(Init(n), acts);
    var s := Run(Init(n), acts);
    forall b: nat | b < s.nextSkb && b !in s.handed
      ensures exists i :: 0 <= i < n && s.slots[i] == Holds(b) && s.InWindow(i) && !s.mask[i]
    {
      assert Accounted(s.slots, s.handed, b);
      var i :| 0 <= i < n && s.slots[i] == Holds(b);
      assert s.InWindow(i);
    }
  }

  // ----- the hand-written wrap checks -----

  /** Release accepts a count exactly when the hardware has read that far. */
  lemma ReleaseAcceptsExact(n: RingSize, relIdx: nat, hwRd: nat, cnt: nat)
    requires relIdx < n && hwRd < n && 0 < cnt < n
    ensures ReleaseAccepts(n, relIdx, hwRd, cnt) <==> cnt <= Dist(n, relIdx, hwRd)
  {
  }

  /** The index comparisons of t7xx_dpmaif_update_bat_wr_idx. */
  predicate WriteAccepts(n: nat, relIdx: nat, wrIdx: nat, cnt: nat) {
    var newWr := wrIdx + cnt;
    && !(relIdx > wrIdx && newWr >= relIdx)
    && !(newWr >= n && newWr - n >= relIdx)
  }

  /** The write-index check accepts exactly the counts that fit in the free space. */
  lemma WriteAcceptsExact(n: RingSize, relIdx: nat, wrIdx: nat, cnt: nat)
    requires relIdx < n && wrIdx < n
    ensures WriteAccepts(n, relIdx, wrIdx, cnt) <==> cnt <= RdWrCount(n, relIdx, wrIdx, Write)
  {
    CountExact(n, relIdx, wrIdx);
  }

  /** Between counting and releasing, polls of other threads may only add bits:
      the counted run stays fully set whatever they do. */
  lemma {:induction false} CountedRunSurvives(s: State, acts: seq<Action>)
    requires Inv(s) && s.phase.Counted?
    requires forall a :: a in acts ==> a.Take? || a.Mark?
    ensures var t := Run(s, acts);
            && t.phase == s.phase && t.released == s.released && t.written == s.written
            && (forall c :: s.released <= c < s.released + s.phase.cnt ==> t.mask[Idx(s.n, c)])
            && s.phase.cnt <= s.written - s.released
  {
    if acts != [] {
      var m := acts[..|acts| - 1];
      assert forall a :: a in m ==> a in acts;
      assert acts[|acts| - 1] in acts;
      CountedRunSurvives(s, m);
    } else {
      RunInsideWindow(s, s.phase.cnt);
    }
  }

  /** A refill that follows an accepted release always has room for the same count. */
  lemma RefillHasRoom(s: State, hwRd: nat)
    requires Inv(s) && s.phase.Counted? && Apply(s, Release(hwRd)).phase.Refilling?
    ensures var t := Apply(s, Release(hwRd));
            s.phase.cnt <= RdWrCount(s.n, Idx(s.n, t.released), Idx(s.n, t.written), Write)
  {
    ReleaseInv(s, hwRd);
    var t := Apply(s, Release(hwRd));
    CountOfPositions(s.n, t.released, t.written);
  }

  // ----- the error path of the refill -----

  /** err_unmap_skbs frees the slots numbered 0 to cnt - 1, whatever slots were filled. */
  function Unmapped(slots: seq<Slot>, cnt: nat): (r: seq<Slot>)
    ensures |r| == |slots|
  {
    seq(|slots|, i requires 0 <= i < |slots| => if i < cnt then Empty else slots[i])
  }

  /** A refill whose doorbell failed: published, then unmapped. */
  ghost function DoorbellFailed(s: State): State
    requires Shape(s)
  {
    var t := Apply(s, Publish);
    t.(slots := Unmapped(t.slots, s.End() - s.written))
  }

  lemma DoorbellFailureSlots(s: State)
    requires Inv(s) && s.phase.Refilling?
    ensures Ownership(DoorbellFailed(s)) <==>
            forall i :: 0 <= i < s.n && i < s.phase.filled ==> s.slots[i] == Empty
  {
    PublishInv(s);
    var t := Apply(s, Publish);
    var u := DoorbellFailed(s);
    forall i | 0 <= i < s.n ensures u.InWindow(i) == t.InWindow(i) {}
    if i :| 0 <= i < s.n && i < s.phase.filled && s.slots[i] != Empty {
      assert t.slots[i].Holds? && u.slots[i] == Empty;
    } else {
      assert u.slots == t.slots;
    }
  }

  /** The ownership property survives a failed doorbell exactly when, by the indices
      and the bitmap, none of the slots 0 .. filled - 1 holds a buffer: each lies
      outside the window to be published, or a poll has taken its buffer. */
  lemma DoorbellFailureExact(s: State)
    requires Inv(s) && s.phase.Refilling?
    ensures Ownership(DoorbellFailed(s)) <==>
            forall i :: 0 <= i < s.n && i < s.phase.filled ==>
              (Live(s.n, s.released, s.written + s.phase.filled, i) ==> s.mask[i] || i in s.marking)
  {
    DoorbellFailureSlots(s);
    forall i | 0 <= i < s.n ensures s.slots[i] == Empty <==> (s.InWindow(i) ==> s.mask[i] || i in s.marking) {}
    hide Live, Inv, Ownership, Owned, DoorbellFailed;
  }

  /** So every refill that runs past the end of the ring breaks it, unless the buffer
      just put into slot 0 is taken at once. */
  lemma DoorbellFailureWraps(s: State)
    requires Inv(s) && s.phase.Refilling? && s.phase.filled > 0
    requires Idx(s.n, s.written) + s.phase.filled > s.n && !s.mask[0] && 0 !in s.marking
    ensures !Ownership(DoorbellFailed(s))
  {
    var k := s.n - Idx(s.n, s.written);
    IdxAdd(s.n, s.written, k);
    DistOfPositions(s.n, s.released, s.written + k);
    assert Live(s.n, s.released, s.written + s.phase.filled, 0);
    DoorbellFailureExact(s);
  }

  /** A refill on a stopped queue: unmapped without having been published. */
  ghost function Unpublished(s: State): State {
    s.(phase := Idle, slots := Unmapped(s.slots, s.End() - s.written))
  }

  // ----- when it can happen -----

  ghost function Refills(k: nat): (acts: seq<Action>)
    ensures |acts| == k
  {
    seq(k, _ => Refill(true))
  }

  /** Takes and marks of the buffers in slots 0 .. k - 1. */
  ghost function TakesOf(k: nat): seq<Action> {
    if k == 0 then [] else TakesOf(k - 1) + [Take(k - 1, true), Mark(k - 1)]
  }

  /** Slots from lo up to hi hold the buffers of the same number. */
  function Numbers(n: nat, lo: nat, hi: nat): (r: seq<Slot>)
    ensures |r| == n
  {
    seq(n, i => if lo <= i < hi then Holds(i) else Empty)
  }

  function Handed(k: nat): (r: seq<nat>)
    ensures |r| == k
  {
    seq(k, i => i)
  }

  function FirstSet(n: nat, k: nat): (r: seq<bool>)
    ensures |r| == n
  {
    seq(n, i => i < k)
  }

  lemma {:induction false} FirstFill(n: RingSize, k: nat)
    requires k <= n - 1
    ensures Run(Init(n), Refills(k)) ==
            State(n, 0, 0, FirstSet(n, 0), Numbers(n, 0, k), Refilling(n - 1, k), {}, k, [])
  {
    hide Run, Apply, Idx;
    if k == 0 {
      RunSnoc(Init(n), [], Publish);
      assert Refills(0) == [];
    } else {
      FirstFill(n, k - 1);
      assert Refills(k) == Refills(k - 1) + [Refill(true)];
      RunSnoc(Init(n), Refills(k - 1), Refill(true));
      FillStep(n, k - 1);
    }
  }

  lemma FillStep(n: RingSize, k: nat)
    requires k < n - 1
    ensures var s := State(n, 0, 0, FirstSet(n, 0), Numbers(n, 0, k), Refilling(n - 1, k), {}, k, []);
            Apply(s, Refill(true)) ==
            State(n, 0, 0, FirstSet(n, 0), Numbers(n, 0, k + 1), Refilling(n - 1, k + 1), {}, k + 1, [])
  {
    assert Numbers(n, 0, k + 1) == Numbers(n, 0, k)[k := Holds(k)];
  }

  lemma PublishStep(n: RingSize)
    ensures var s := State(n, 0, 0, FirstSet(n, 0), Numbers(n, 0, n - 1), Refilling(n - 1, n - 1), {}, n - 1, []);
            Apply(s, Publish) == s.(written := n - 1, phase := Idle)
  {
  }

  lemma TakeMark(n: RingSize, k: nat)
    requires k < n - 1
    ensures var s := State(n, n - 1, 0, FirstSet(n, k), Numbers(n, k, n - 1), Idle, {}, n - 1, Handed(k));
            Apply(Apply(s, Take(k, true)), Mark(k)) ==
            State(n, n - 1, 0, FirstSet(n, k + 1), Numbers(n, k + 1, n - 1), Idle, {}, n - 1, Handed(k + 1))
  {
    assert FirstSet(n, k + 1) == FirstSet(n, k)[k := true];
    assert Numbers(n, k + 1, n - 1) == Numbers(n, k, n - 1)[k := Empty];
    assert Handed(k + 1) == Handed(k) + [k];
    assert {} + {k} - {k} == {};
  }

  lemma {:induction false} FirstTakes(n: RingSize, k: nat)
    requires k <= n - 1
    ensures Run(State(n, n - 1, 0, FirstSet(n, 0), Numbers(n, 0, n - 1), Idle, {}, n - 1, []), TakesOf(k)) ==
            State(n, n - 1, 0, FirstSet(n, k), Numbers(n, k, n - 1), Idle, {}, n - 1, Handed(k))
  {
    hide Run, Apply;
    var s := State(n, n - 1, 0, FirstSet(n, 0), Numbers(n, 0, n - 1), Idle, {}, n - 1, []);
    if k == 0 {
      RunSnoc(s, [], Publish);
      assert Handed(0) == [];
    } else {
      FirstTakes(n, k - 1);
      RunSnoc(s, TakesOf(k - 1), Take(k - 1, true));
      RunSnoc(s, TakesOf(k - 1) + [Take(k - 1, true)], Mark(k - 1));
      assert TakesOf(k) == (TakesOf(k - 1) + [Take(k - 1, true)]) + [Mark(k - 1)];
      TakeMark(n, k - 1);
    }
  }

  /** First fill, a full threshold of packets taken, the worker's release, and two
      refills: the second goes into slot 0. */
  ghost function WrappingRun(n: RingSize): seq<Action> {
    Refills(n - 1) + [Publish] + TakesOf(BAT_CNT_THRESHOLD)
    + [Count(BAT_CNT_THRESHOLD), Release(BAT_CNT_THRESHOLD)] + [Refill(true), Refill(true)]
  }

  lemma ThresholdReleased(n: RingSize)
    requires n > BAT_CNT_THRESHOLD
    ensures var k := BAT_CNT_THRESHOLD;
            var s := State(n, n - 1, 0, FirstSet(n, k), Numbers(n, k, n - 1), Idle, {}, n - 1, Handed(k));
            Apply(Apply(s, Count(k)), Release(k)) ==
            State(n, n - 1, k, FirstSet(n, 0), Numbers(n, k, n - 1), Refilling(k, 0), {}, n - 1, Handed(k))
  {
    var k := BAT_CNT_THRESHOLD;
    var s := State(n, n - 1, 0, FirstSet(n, k), Numbers(n, k, n - 1), Idle, {}, n - 1, Handed(k));
    assert IsRun(n, s.mask, 0, k);
    assert Cleared(n, s.mask, 0, k) == FirstSet(n, 0);
  }

  lemma TwoRefills(s: State)
    requires Inv(s) && s.phase.Refilling? && s.phase.filled == 0 && s.phase.want >= 2
    requires Idx(s.n, s.written) == s.n - 1
    ensures var t := Apply(Apply(s, Refill(true)), Refill(true));
            && t.phase == s.phase.(filled := 2) && t.mask == s.mask && t.marking == s.marking
            && t.written == s.written && t.n == s.n
  {
    RefillTargetEmpty(s);
    RefillInv(s, true);
    RefillTargetEmpty(Apply(s, Refill(true)));
  }

  lemma WrappedState(n: RingSize)
    requires n > BAT_CNT_THRESHOLD
    ensures Idx(n, n - 1) == n - 1 && !FirstSet(n, 0)[0]
  {
  }

  /** In every ring of more than BAT_CNT_THRESHOLD slots a refill after the first can
      come to a state in which a failed doorbell frees a buffer of the published window. */
  lemma DoorbellFailureBreaks(n: RingSize)
    requires n > BAT_CNT_THRESHOLD
    ensures var s := Run(Init(n), WrappingRun(n));
            Inv(s) && s.phase.Refilling? && s.written > 0 && !Ownership(DoorbellFailed(s))
  {
    hide Run, Apply, Idx, Live, Inv, Ownership, Numbers, FirstSet, Handed, TakesOf, Refills, DoorbellFailed;
    var k := BAT_CNT_THRESHOLD;
    var s0 := Init(n);
    InitInv(n);
    RunInv(s0, WrappingRun(n));
    var a1 := Refills(n - 1) + [Publish];
    FirstFill(n, n - 1);
    RunSnoc(s0, Refills(n - 1), Publish);
    PublishStep(n);
    var s1 := State(n, n - 1, 0, FirstSet(n, 0), Numbers(n, 0, n - 1), Idle, {}, n - 1, []);
    assert Run(s0, a1) == s1;
    RunAppend(s0, a1, TakesOf(k));
    FirstTakes(n, k);
    var a2 := a1 + TakesOf(k);
    RunSnoc(s0, a2, Count(k));
    RunSnoc(s0, a2 + [Count(k)], Release(k));
    ThresholdReleased(n);
    var a3 := a2 + [Count(k)] + [Release(k)];
    var s3 := State(n, n - 1, k, FirstSet(n, 0), Numbers(n, k, n - 1), Refilling(k, 0), {}, n - 1, Handed(k));
    assert Run(s0, a3) == s3;
    RunInv(s0, a3);
    RunSnoc(s0, a3, Refill(true));
    RunSnoc(s0, a3 + [Refill(true)], Refill(true));
    assert a3 + [Refill(true)] + [Refill(true)] == WrappingRun(n);
    WrappedState(n);
    TwoRefills(s3);
    DoorbellFailureWraps(Run(s0, WrappingRun(n)));
  }

  /** In a ring of at most BAT_CNT_THRESHOLD slots there is no refill but the first,
      which rings no doorbell. */
  lemma {:induction false} SmallRingNeverRefills(n: RingSize, acts: seq<Action>)
    requires n <= BAT_CNT_THRESHOLD
    ensures var s := Run(Init(n), acts); !s.phase.Counted? && (s.phase.Refilling? ==> s.written == 0)
  {
    if acts != [] {
      var k := |acts| - 1;
      SmallRingNeverRefills(n, acts[..k]);
      InitInv(n);
      RunInv(Init(n), acts[..k]);
      var s := Run(Init(n), acts[..k]);
      if acts[k].Count? && Apply(s, acts[k]).phase.Counted? {
        RunInsideWindow(s, acts[k].cnt);
      }
    }
  }
}
