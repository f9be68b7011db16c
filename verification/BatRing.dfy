/** struct dpmaif_bat_request and the functions that work on it in place
    (src/t7xx_hif_dpmaif_rx.c:81-234, 446-554, 571-591, 659-678). Each call is
    proved to be a run of the steps of BatProtocol. */
module BatRing {
  import opened Ring
  import opened BatProtocol
  import opened Errno

  /** Does the i-th allocation of a call succeed? Beyond the list, none does. */
  predicate Got(gotSkb: seq<bool>, i: nat) {
    i < |gotSkb| && gotSkb[i]
  }

  /** Successful allocations before the first failure, at most cnt. */
  ghost function Leading(gotSkb: seq<bool>, cnt: nat): (k: nat)
    ensures k <= cnt
    ensures forall i :: 0 <= i < k ==> Got(gotSkb, i)
    ensures k < cnt ==> !Got(gotSkb, k)
  {
    if cnt == 0 then 0
    else
      var k := Leading(gotSkb, cnt - 1);
      if k == cnt - 1 && Got(gotSkb, k) then cnt else k
  }

  lemma RefillsStep(s: State, i: nat)
    requires Shape(s)
    ensures Run(s, Refills(0)) == s
    ensures Run(s, Refills(i + 1)) == Apply(Run(s, Refills(i)), Refill(true))
  {
    assert Refills(i + 1) == Refills(i) + [Refill(true)];
    RunSnoc(s, Refills(i), Refill(true));
  }

  /** Refilling steps do nothing for an idle worker. */
  lemma {:induction false} IdleRefills(s: State, k: nat)
    requires Shape(s) && s.phase.Idle?
    ensures Run(s, Refills(k)) == s && Apply(s, Publish) == s
  {
    IdleStays(s);
    hide Apply, Run, Refills;
    RefillsStep(s, if k == 0 then 0 else k - 1);
    if k > 0 {
      IdleRefills(s, k - 1);
    }
  }

  lemma IdleStays(s: State)
    requires Shape(s) && s.phase.Idle?
    ensures Apply(s, Refill(true)) == s && Apply(s, Publish) == s
  {
  }

  /** A worker pass that got as far as the refill. */
  ghost function WorkerPass(cnt: nat, hwRd: nat, filled: nat): seq<Action> {
    [Count(cnt), Release(hwRd)] + Refills(filled) + [Publish]
  }

  lemma WorkerPassRun(s: State, cnt: nat, hwRd: nat, filled: nat)
    requires Shape(s)
    ensures var released := Apply(Apply(s, Count(cnt)), Release(hwRd));
            Run(s, WorkerPass(cnt, hwRd, filled)) == Apply(Run(released, Refills(filled)), Publish)
  {
    hide Apply, Run;
    RunSnoc(s, [], Count(cnt));
    assert [] + [Count(cnt)] == [Count(cnt)];
    RunSnoc(s, [Count(cnt)], Release(hwRd));
    assert [Count(cnt)] + [Release(hwRd)] == [Count(cnt), Release(hwRd)];
    RunAppend(s, [Count(cnt), Release(hwRd)], Refills(filled));
    RunSnoc(s, [Count(cnt), Release(hwRd)] + Refills(filled), Publish);
  }

  /** The end of a worker pass whose doorbell fails, from the state after the release. */
  ghost function PassFailed(s: State, filled: nat): State
    requires Shape(s)
  {
    if !s.phase.Refilling? || filled == 0 then s.(phase := Idle)
    else DoorbellFailed(Run(s, Refills(filled)))
  }

  lemma CountStep(s: State, cnt: nat)
    requires Inv(s) && s.phase.Idle? && IsRun(s.n, s.mask, s.released, cnt) && cnt >= BAT_CNT_THRESHOLD
    ensures Apply(s, Count(cnt)) == s.(phase := Counted(cnt)) && Inv(s.(phase := Counted(cnt)))
  {
    CountInv(s, cnt);
  }

  lemma ReleaseRejected(s: State, hwRd: nat)
    requires Shape(s) && s.phase.Counted? && !Apply(s, Release(hwRd)).phase.Refilling?
    ensures Apply(s, Release(hwRd)) == s.(phase := Idle)
  {
  }

  lemma RefillStarts(s: State, want: nat)
    requires Inv(s) && s.phase.Idle? && want <= s.n - 1 - (s.written - s.released)
    ensures Inv(s.(phase := Refilling(want, 0)))
  {
  }

  lemma RefillAborts(s: State)
    requires Inv(s) && s.phase.Refilling? && s.phase.filled == 0
    ensures Inv(s.(phase := Idle)) && s.(phase := Idle) == Apply(s, Publish)
    ensures s.phase.want <= s.n - 1 - (s.written - s.released)
  {
    PublishInv(s);
  }

  class BatRequest {
    const n: RingSize
    var started: bool
    var wrIdx: nat
    var relIdx: nat
    const bitmap: array<bool>
    const skbs: array<Slot>
    var nextSkb: nat
    ghost var written: nat
    ghost var released: nat
    ghost var handed: seq<nat>

    ghost predicate Shaped()
      reads this
    {
      && bitmap.Length == n && skbs.Length == n
      && wrIdx == Idx(n, written) && relIdx == Idx(n, released)
    }

    ghost function View(phase: Phase): (s: State)
      requires bitmap.Length == n && skbs.Length == n
      reads this, bitmap, skbs
      ensures Shape(s)
    {
      State(n, written, released, bitmap[..], skbs[..], phase, {}, nextSkb, handed)
    }

    ghost predicate Valid()
      reads this, bitmap, skbs
    {
      Shaped() && Inv(View(Idle))
    }

    /** t7xx_dpmaif_bat_alloc */
    constructor (size: RingSize)
      ensures n == size && Valid() && fresh(bitmap) && fresh(skbs)
      ensures View(Refilling(n - 1, 0)) == Init(n) && !started
    {
      n := size;
      started := false;
      wrIdx, relIdx, nextSkb := 0, 0, 0;
      written, released, handed := 0, 0, [];
      bitmap := new bool[size](_ => false);
      skbs := new Slot[size](_ => Empty);
      new;
      assert bitmap[..] == Init(n).mask;
      assert skbs[..] == Init(n).slots;
      InitInv(n);
    }

    /** t7xx_bat_cur_bid_check, t7xx_dpmaif_set_data_to_skb, t7xx_dpmaif_set_bat_mask:
        take the buffer the hardware names, if it is there and the data fits. */
    method GetRxPkt(bid: nat, fits: bool) returns (ret: int, skb: nat)
      requires Valid()
      modifies this`handed, bitmap, skbs
      ensures Valid()
      ensures View(Idle) == Run(old(View(Idle)), [Take(bid, fits), Mark(bid)])
      ensures ret == 0 <==> bid < n && old(skbs[..])[bid].Holds? && fits
      ensures ret < 0 ==> View(Idle) == old(View(Idle))
      ensures ret == 0 ==> skb == old(skbs[..])[bid].skb && handed == old(handed) + [skb]
      ensures ret == if bid >= n || old(skbs[..])[bid].Empty? then -EINVAL else if !fits then -ENOBUFS else 0
    {
      ghost var s := View(Idle);
      ghost var acts := [Take(bid, fits), Mark(bid)];
      assert acts[..1] == [Take(bid, fits)] && acts[..1][..0] == [];
      assert Run(s, acts[..1]) == Apply(s, Take(bid, fits));
      RunInv(s, acts);
      if bid >= n || skbs[bid].Empty? {
        return -EINVAL, 0;
      }
      if !fits {
        return -ENOBUFS, 0;
      }
      skb := skbs[bid].skb;
      handed := handed + [skb];
      skbs[bid] := Empty;
      bitmap[bid] := true;
      ret := 0;
      assert {bid} - {bid} == {};
      assert View(Idle) == Run(s, acts);
    }

    /** find_next_zero_bit */
    method FindNextZeroBit(size: nat, start: nat) returns (z: nat)
      requires size <= bitmap.Length && start <= size
      ensures start <= z <= size
      ensures forall i :: start <= i < z ==> bitmap[i]
      ensures z < size ==> !bitmap[z]
    {
      z := start;
      while z < size && bitmap[z]
        invariant start <= z <= size
        invariant forall i :: start <= i < z ==> bitmap[i]
      {
        z := z + 1;
      }
    }

    /** t7xx_dpmaif_avail_pkt_bat_cnt: the longest circular run of set bits. */
    method AvailPktBatCnt() returns (cnt: nat)
      requires Shaped()
      ensures IsRun(n, bitmap[..], released, cnt)
    {
      var zero := FindNextZeroBit(n, relIdx);
      if zero < n {
        cnt := zero - relIdx;
        IdxAdd(n, released, cnt);
      } else {
        zero := FindNextZeroBit(relIdx, 0);
        cnt := n - relIdx + zero;
        IdxAdd(n, released, cnt);
      }
      forall c | released <= c < released + cnt ensures bitmap[..][Idx(n, c)] {
        IdxAdd(n, released, c - released);
      }
    }

    /** The clearing loop of t7xx_dpmaif_release_bat_entry, under the mask lock. */
    method ClearBits(cnt: nat)
      requires Shaped() && cnt < n
      modifies bitmap
      ensures bitmap[..] == Cleared(n, old(bitmap[..]), released, cnt)
    {
      hide Idx;
      for i := 0 to cnt
        invariant forall j :: 0 <= j < n ==> bitmap[j] == (old(bitmap[j]) && Dist(n, relIdx, j) >= i)
      {
        var index := relIdx + i;
        if index >= n {
          index := index - n;
        }
        assert Dist(n, relIdx, index) == i;
        assert forall j :: 0 <= j < n && Dist(n, relIdx, j) == i ==> j == index;
        bitmap[index] := false;
      }
      assert bitmap[..] == Cleared(n, old(bitmap[..]), released, cnt);
    }

    /** t7xx_dpmaif_release_bat_entry for the normal BAT. */
    method ReleaseBatEntry(cnt: nat, hwRd: nat) returns (ret: int)
      requires Shaped()
      modifies this`relIdx, this`released, bitmap
      ensures Shaped()
      ensures ret > 0 ==> ret == cnt
      ensures ret > 0 ==> View(Refilling(cnt, 0)) == Apply(old(View(Counted(cnt))), Release(hwRd))
      ensures ret <= 0 ==> View(Idle) == old(View(Idle))
      ensures ret > 0 <==> started && Apply(old(View(Counted(cnt))), Release(hwRd)).phase.Refilling?
      ensures ret == if !started || cnt == 0 || cnt >= n then -EINVAL
                     else if wrIdx == old(relIdx) then 0
                     else if ReleaseAccepts(n, old(relIdx), hwRd, cnt) then cnt else -EINVAL
    {
      if !started || cnt == 0 {
        return -EINVAL;
      }
      if cnt >= n {
        return -EINVAL;
      }
      var newRel := relIdx + cnt;
      if wrIdx == relIdx {
        return 0;
      }
      if hwRd >= relIdx {
        if newRel > hwRd {
          return -EINVAL;
        }
      }
      if newRel >= n {
        newRel := newRel - n;
        if newRel > hwRd {
          return -EINVAL;
        }
      }
      ClearBits(cnt);
      IdxAdd(n, released, cnt);
      relIdx := newRel;
      released := released + cnt;
      ret := cnt;
    }

    /** t7xx_dpmaif_update_bat_wr_idx */
    method UpdateBatWrIdx(cnt: nat) returns (ret: int)
      requires Shaped() && released <= written < released + n
      modifies this`wrIdx, this`written
      ensures Shaped()
      ensures ret == 0 <==> started && cnt <= n - 1 - (written - released) + (written - old(written))
      ensures ret == 0 ==> written == old(written) + cnt
      ensures ret != 0 ==> ret == -EINVAL && written == old(written) && wrIdx == old(wrIdx)
    {
      if !started {
        return -EINVAL;
      }
      ghost var w := wrIdx;
      WriteAcceptsExact(n, relIdx, wrIdx, cnt);
      CountOfPositions(n, released, written);
      var newWr := wrIdx + cnt;
      if relIdx > wrIdx && newWr >= relIdx {
        assert !WriteAccepts(n, relIdx, wrIdx, cnt);
        return -EINVAL;
      }
      if newWr >= n {
        newWr := newWr - n;
        if newWr >= relIdx {
          assert !WriteAccepts(n, relIdx, wrIdx, cnt);
          return -EINVAL;
        }
      }
      assert WriteAccepts(n, relIdx, wrIdx, cnt);
      IdxAdd(n, written, cnt);
      wrIdx := newWr;
      written := written + cnt;
      ret := 0;
    }

    /** t7xx_unmap_bat_skb over the slots below cnt, as the error path does. */
    method UnmapBelow(cnt: nat)
      requires Shaped() && cnt <= n
      modifies skbs
      ensures skbs[..] == Unmapped(old(skbs[..]), cnt)
    {
      var i := cnt;
      while i > 0
        invariant 0 <= i <= cnt
        invariant forall j :: 0 <= j < n ==> skbs[j] == if i <= j < cnt then Empty else old(skbs[j])
      {
        i := i - 1;
        skbs[i] := Empty;
      }
      assert skbs[..] == Unmapped(old(skbs[..]), cnt);
    }

    /** One turn of the allocation loop. */
    method FillOne(bufCnt: nat, i: nat, gotSkb: bool) returns (ok: bool)
      requires Shaped() && i < bufCnt && Inv(View(Refilling(bufCnt, i)))
      modifies this`nextSkb, skbs
      ensures Shaped() && ok == gotSkb
      ensures ok ==> View(Refilling(bufCnt, i + 1)) == Apply(old(View(Refilling(bufCnt, i))), Refill(true))
      ensures !ok ==> View(Idle) == old(View(Idle))
    {
      ghost var s := View(Refilling(bufCnt, i));
      assert i <= n;
      hide Inv, Idx;
      var cur := wrIdx + i;
      if cur >= n {
        cur := cur - n;
      }
      IdxAdd(n, written, i);
      RefillTargetEmpty(s);
      if skbs[cur].Empty? {
        if !gotSkb {
          return false;
        }
        skbs[cur] := Holds(nextSkb);
        nextSkb := nextSkb + 1;
      }
      ok := true;
      assert skbs[..] == s.slots[cur := Holds(s.nextSkb)];
    }

    /** The allocation loop: fills free slots from the write index on until one
        allocation fails. */
    method FillSlots(bufCnt: nat, gotSkb: seq<bool>) returns (i: nat)
      requires Valid() && 0 < bufCnt <= n - 1 - (written - released)
      modifies this`nextSkb, skbs
      ensures Shaped() && i <= bufCnt
      ensures forall j :: 0 <= j < i ==> Got(gotSkb, j)
      ensures i < bufCnt ==> !Got(gotSkb, i)
      ensures View(Refilling(bufCnt, i)) == Run(old(View(Refilling(bufCnt, 0))), Refills(i))
      ensures Inv(View(Refilling(bufCnt, i)))
    {
      hide Inv, Apply, Run;
      ghost var s0 := View(Refilling(bufCnt, 0));
      RefillStarts(View(Idle), bufCnt);
      ghost var s := s0;
      RefillsStep(s0, 0);
      i := 0;
      while i < bufCnt
        invariant 0 <= i <= bufCnt && Shaped()
        invariant forall j :: 0 <= j < i ==> Got(gotSkb, j)
        invariant s == Run(s0, Refills(i))
        invariant View(Refilling(bufCnt, i)) == s
      {
        RunInv(s0, Refills(i));
        var ok := FillOne(bufCnt, i, Got(gotSkb, i));
        if !ok {
          assert View(Refilling(bufCnt, i)) == View(Idle).(phase := Refilling(bufCnt, i));
          break;
        }
        RefillsStep(s0, i);
        s := Apply(s, Refill(true));
        i := i + 1;
      }
      RunInv(s0, Refills(i));
    }

    /** t7xx_dpmaif_rx_buf_alloc. gotSkb[i] says whether the i-th allocation succeeds,
        doorbellOk whether the hardware takes the count and reports the expected index. */
    method RxBufAlloc(bufCnt: nat, initial: bool, gotSkb: seq<bool>, doorbellOk: bool)
        returns (ret: int, ghost filled: nat)
      requires Valid()
      modifies this`wrIdx, this`written, this`nextSkb, skbs
      ensures Shaped() && filled <= bufCnt
      ensures filled > 0 <==> 0 < bufCnt <= n - 1 - (old(written) - released) && Got(gotSkb, 0)
      ensures filled > 0 ==> (forall i :: 0 <= i < filled ==> Got(gotSkb, i)) && (filled < bufCnt ==> !Got(gotSkb, filled))
      ensures filled == 0 ==> ret < 0 && View(Idle) == old(View(Idle))
      ensures ret == 0 <==> filled > 0 && started && (initial || doorbellOk)
      ensures ret == 0 ==> Valid()
      ensures ret == 0 ==> View(Idle) == Apply(Run(old(View(Refilling(bufCnt, 0))), Refills(filled)), Publish)
      ensures filled > 0 && started && ret != 0 ==>
                View(Idle) == DoorbellFailed(Run(old(View(Refilling(bufCnt, 0))), Refills(filled)))
      ensures filled > 0 && !started ==> ret == -EINVAL
      ensures filled > 0 && !started ==>
                View(Idle) == Unpublished(Run(old(View(Refilling(bufCnt, 0))), Refills(filled)))
      ensures ret == if bufCnt == 0 || bufCnt > n then -EINVAL
                     else if filled == 0 then -ENOMEM
                     else if !started then -EINVAL
                     else if initial || doorbellOk then 0 else -EFAULT
    {
      filled := 0;
      if bufCnt == 0 || bufCnt > n {
        return -EINVAL, 0;
      }
      CountOfPositions(n, released, written);
      var batCnt := RdWrCount(n, relIdx, wrIdx, Write);
      if bufCnt > batCnt {
        return -ENOMEM, 0;
      }
      ghost var s0 := View(Refilling(bufCnt, 0));
      var i := FillSlots(bufCnt, gotSkb);
      filled := i;
      ghost var t := View(Refilling(bufCnt, i));
      if i == 0 {
        assert View(Idle) == t.(phase := Idle);
        return -ENOMEM, 0;
      }
      ret := UpdateBatWrIdx(i);
      if ret == 0 {
        assert View(Idle) == Apply(t, Publish);
        PublishInv(t);
      }
      if ret != 0 {
        UnmapBelow(i);
        assert View(Idle) == Unpublished(t);
        return ret, filled;
      }
      if !initial && !doorbellOk {
        UnmapBelow(i);
        assert View(Idle) == DoorbellFailed(t);
        return -EFAULT, filled;
      }
    }

    /** t7xx_dpmaif_bat_release_and_add: the whole worker pass is one run of the
        protocol, and its refill never fails for lack of room. */
    method ReleaseAndAdd(hwRd: nat, gotSkb: seq<bool>, doorbellOk: bool) returns (ret: int, ghost cnt: nat)
      requires Valid()
      modifies this`wrIdx, this`relIdx, this`written, this`released, this`nextSkb, bitmap, skbs
      ensures IsRun(n, old(bitmap[..]), old(released), cnt)
      ensures ret == if cnt < BAT_CNT_THRESHOLD then 0
                     else if !started || cnt >= n then -EINVAL
                     else if old(wrIdx) == old(relIdx) then 0
                     else if !ReleaseAccepts(n, old(relIdx), hwRd, cnt) then -EINVAL
                     else if !Got(gotSkb, 0) then -ENOMEM
                     else if doorbellOk then 0 else -EFAULT
      ensures cnt < BAT_CNT_THRESHOLD || !started ==> View(Idle) == old(View(Idle))
      ensures cnt >= BAT_CNT_THRESHOLD && started && doorbellOk ==>
                View(Idle) == Run(old(View(Idle)), WorkerPass(cnt, hwRd, Leading(gotSkb, cnt)))
      ensures cnt >= BAT_CNT_THRESHOLD && started && !doorbellOk ==>
                View(Idle) == PassFailed(Apply(Apply(old(View(Idle)), Count(cnt)), Release(hwRd)), Leading(gotSkb, cnt))
      ensures doorbellOk ==> Valid()
    {
      hide Apply, Run, Inv;
      ghost var s := View(Idle);
      var bidCnt := AvailPktBatCnt();
      cnt := bidCnt;
      if bidCnt < BAT_CNT_THRESHOLD {
        return 0, cnt;
      }
      CountStep(s, cnt);
      WorkerPassRun(s, cnt, hwRd, Leading(gotSkb, cnt));
      ghost var counted := View(Counted(cnt));
      ret := ReleaseBatEntry(bidCnt, hwRd);
      if ret <= 0 {
        if started {
          ReleaseRejected(counted, hwRd);
          IdleRefills(s, Leading(gotSkb, cnt));
        }
        return ret, cnt;
      }
      ReleaseInv(counted, hwRd);
      ghost var rel := View(Refilling(cnt, 0));
      RefillAborts(rel);
      assert View(Idle) == rel.(phase := Idle);
      ghost var filled;
      ret, filled := RxBufAlloc(bidCnt, false, gotSkb, doorbellOk);
      RefillsStep(rel, 0);
    }
  }
}
