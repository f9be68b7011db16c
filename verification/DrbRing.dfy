/** struct dpmaif_tx_queue: pending list, descriptor ring and budget, worked on by a
    push thread, a release worker and the hardware
    (src/t7xx_hif_dpmaif_tx.c:51-151, 242-409, 411-444, 507-525, 563-676).
    Positions count descriptors since the last flush. */
module DrbRing {
  import opened Ring
  import opened DrbStream
  import opened DrbRelease
  import opened Errno
  import opened Bags

  const SKB_TX_BURST_CNT := 5
  const UL_DRB_SIZE_WORD := 4

  /** A slice of concurrent activity: the hardware reads some descriptors, then the
      release worker runs with a limit. */
  datatype Turn = Turn(fetched: nat, limit: nat)

  /** What one packet of a burst meets: DMA answers per part (None is a mapping
      error), the activity slipping in before each part is written, and buffers other
      threads submit before the list is looked at and before the packet is unlinked. */
  datatype AddAnswer = AddAnswer(maps: seq<Option<nat>>, turns: seq<Turn>, before: Turn, early: seq<Buf>, late: seq<Buf>)

  function TurnAt(turns: seq<Turn>, i: nat): Turn {
    if i < |turns| then turns[i] else Turn(0, 0)
  }

  function MapAt(maps: seq<Option<nat>>, i: nat): Option<nat> {
    if i < |maps| then maps[i] else None
  }

  function AnswerAt(answers: seq<AddAnswer>, i: nat): AddAnswer {
    if i < |answers| then answers[i] else AddAnswer([], [], Turn(0, 0), [], [])
  }

  /** The buffers other threads offer during a burst. */
  function Offers(answers: seq<AddAnswer>): seq<Buf> {
    if answers == [] then [] else Offers(answers[..|answers| - 1]) + Last(answers).early + Last(answers).late
  }

  function Last(answers: seq<AddAnswer>): AddAnswer
    requires answers != []
  {
    answers[|answers| - 1]
  }

  lemma {:induction false} OffersHas(answers: seq<AddAnswer>, i: nat)
    ensures forall b :: b in AnswerAt(answers, i).early || b in AnswerAt(answers, i).late ==> b in Offers(answers)
  {
    if i < |answers| - 1 {
      OffersHas(answers[..|answers| - 1], i);
    }
  }

  lemma PendingConcat(a: seq<Buf>, b: seq<Buf>)
    ensures PendingIds(a + b) == PendingIds(a) + PendingIds(b) && PendingIds([]) == []
  {
  }

  function PendingIds(pending: seq<Buf>): (r: seq<nat>)
    ensures |r| == |pending|
  {
    seq(|pending|, i requires 0 <= i < |pending| => pending[i].id)
  }

  function Bufs(sent: seq<Sent>): (r: seq<Buf>)
    ensures |r| == |sent|
  {
    seq(|sent|, i requires 0 <= i < |sent| => sent[i].buf)
  }

  /** A frame whose first parts have been mapped. */
  ghost function PartialFrame(b: Buf, hi: nat, addrs: seq<nat>): (r: seq<Slot>)
    requires |addrs| <= b.PayloadCnt()
    ensures |r| == |addrs| + 1
  {
    [MsgSlot(b, hi)] + seq(|addrs|, i requires 0 <= i < |addrs| => PdSlot(b, i, addrs[i]))
  }

  lemma PartialSnoc(b: Buf, hi: nat, addrs: seq<nat>, a: nat)
    requires |addrs| < b.PayloadCnt()
    ensures PartialFrame(b, hi, addrs + [a]) == PartialFrame(b, hi, addrs) + [PdSlot(b, |addrs|, a)]
    ensures PartialFrame(b, hi, []) == [MsgSlot(b, hi)]
  {
  }

  lemma PartialDone(b: Buf, hi: nat, addrs: seq<nat>)
    requires |addrs| == b.PayloadCnt()
    ensures Frame(Sent(b, addrs, hi))[..b.DrbCnt() - 1] == PartialFrame(b, hi, addrs[..|addrs| - 1])
  {
  }

  /** The addresses are what the DMA layer answered for the first parts. */
  predicate Mapped(maps: seq<Option<nat>>, addrs: seq<nat>) {
    forall i :: 0 <= i < |addrs| ==> MapAt(maps, i) == Some(addrs[i])
  }

  predicate AllMapped(b: Buf, answer: AddAnswer) {
    forall i :: 0 <= i < b.PayloadCnt() ==> MapAt(answer.maps, i).Some?
  }

  /** The first pending packet fits and maps. */
  predicate Admits(pending: seq<Buf>, space: int, answers: seq<AddAnswer>) {
    pending != [] && pending[0].DrbCnt() <= space && AllMapped(pending[0], AnswerAt(answers, 0))
  }

  lemma MappedSnoc(maps: seq<Option<nat>>, addrs: seq<nat>)
    ensures Mapped(maps, [])
    ensures Mapped(maps, addrs) && MapAt(maps, |addrs|).Some? ==> Mapped(maps, addrs + [MapAt(maps, |addrs|).value])
  {
  }

  /** The same buffers, each as often. */
  predicate SameBag(a: seq<nat>, b: seq<nat>) {
    multiset(a) == multiset(b)
  }

  lemma LastOfFrame(x: Sent)
    requires x.Ok()
    ensures Frame(x) == Frame(x)[..x.buf.DrbCnt() - 1] + [PdSlot(x.buf, |x.buf.fragLens|, x.addrs[|x.buf.fragLens|])]
  {
  }

  class DrbRing {
    const n: RingSize
    const slots: array<Slot>
    var queStarted: bool
    var pwrOn: bool
    var wrIdx: nat
    var rdIdx: nat
    var relIdx: nat
    var budget: int
    var pending: seq<Buf>
    var freed: seq<nat>          // buffers freed so far, in order

    // the hardware
    var hwRdIdx: nat             // its read index register
    var hwWords: nat             // words announced and not yet read

    ghost var sent: seq<Sent>    // packets put into the ring since the last flush
    ghost var stream: seq<Slot>  // their descriptors
    ghost var relPos: nat
    ghost var rdPos: nat
    ghost var hwPos: nat
    ghost var rung: nat          // position up to which doorbells were rung
    ghost var accepted: seq<nat> // buffers accepted for sending, in order
    ghost var before: seq<nat>   // those put into the ring before the last flush
    ghost var freedBefore: seq<nat>
    ghost var flushed: nat       // descriptors discarded by flushes

    /** Everything but the pending list, while the push thread has reserved some
        slots and has not yet charged some others to the budget. */
    ghost predicate Core(reserved: nat, uncharged: nat)
      reads this`sent, this`stream, this`relPos, this`rdPos, this`hwPos, this`rung, this`flushed, this`freedBefore
      reads this`wrIdx, this`rdIdx, this`relIdx, this`hwRdIdx, this`hwWords, this`budget, this`freed, slots
    {
      && slots.Length == n
      && AllOk(sent) && stream == Stream(sent)
      && relPos <= rdPos <= hwPos <= rung <= |stream|
      && |stream| + reserved < relPos + n
      && wrIdx == Idx(n, |stream| + reserved)
      && rdIdx == Idx(n, rdPos)
      && relIdx == Idx(n, relPos)
      && hwRdIdx == Idx(n, hwPos)
      && hwWords == (rung - hwPos) * UL_DRB_SIZE_WORD
      && Window(n, slots[..], stream, relPos, |stream|)
      && Quiet(n, slots[..], relPos, |stream|)
      && budget == n - (|stream| - relPos) - flushed + uncharged
      && freed == freedBefore + LastIds(stream[..relPos])
    }

    /** Accepted buffers are, in order: discarded earlier, put into the ring, pending. */
    ghost predicate Accounted()
      reads this`accepted, this`before, this`sent, this`pending, this`freedBefore
    {
      && accepted == before + Ids(sent) + PendingIds(pending)
      && SameBag(freedBefore, before)
    }

    ghost predicate Valid()
      reads this, slots
    {
      Core(0, 0) && Accounted()
    }

    /** Buffers owned by live descriptors. */
    ghost function InRing(): seq<nat>
      reads this
      requires relPos <= |stream|
    {
      LastIds(stream[relPos..])
    }

    ghost function RawView(): (r: Raw)
      reads this, slots
      ensures |r.slots| == slots.Length
    {
      Raw(slots[..], relIdx, budget, freed)
    }

    lemma Positions(reserved: nat, uncharged: nat)
      requires Core(reserved, uncharged)
      ensures slots.Length == n && relPos <= rdPos <= hwPos <= rung <= |stream| < relPos + n
      ensures |stream| + reserved < relPos + n && relIdx == Idx(n, relPos) && rdIdx == Idx(n, rdPos)
      ensures wrIdx == Idx(n, |stream| + reserved) && RawOk(n, RawView())
      ensures hwRdIdx == Idx(n, hwPos)
      ensures budget == n - (|stream| - relPos) - flushed + uncharged
    {
    }

    /** Exactly once: every accepted buffer is freed, owned by one live descriptor,
        or pending. */
    lemma ExactlyOnce()
      requires Valid()
      ensures relPos <= |stream|
      ensures multiset(accepted) == multiset(freed) + multiset(InRing()) + multiset(PendingIds(pending))
    {
      hide LastIds, Ids, PendingIds, Stream;
      StreamLastIds(sent);
      LastIdsSplit(stream[..relPos], stream[relPos..]);
      assert stream == stream[..relPos] + stream[relPos..];
      SumParts(before, freedBefore, LastIds(stream[..relPos]), LastIds(stream[relPos..]), PendingIds(pending));
    }

    /** If no buffer is submitted twice, none is freed twice, and none is freed while
        a live descriptor or the pending list still has it. */
    lemma FreedOnce()
      requires Valid() && forall i, j :: 0 <= i < j < |accepted| ==> accepted[i] != accepted[j]
      ensures forall i, j :: 0 <= i < j < |freed| ==> freed[i] != freed[j]
      ensures relPos <= |stream|
      ensures forall b :: b in freed ==> b !in InRing() && b !in PendingIds(pending)
    {
      hide Core, LastIds, PendingIds;
      ExactlyOnce();
      var ring, pend := InRing(), PendingIds(pending);
      forall b ensures multiset(freed)[b] + multiset(ring)[b] + multiset(pend)[b] <= 1 {
        AtMostOnce(accepted, b);
        assert multiset(accepted)[b] == multiset(freed)[b] + multiset(ring)[b] + multiset(pend)[b];
      }
      forall i, j | 0 <= i < j < |freed| ensures freed[i] != freed[j] {
        TwiceCounts(freed, i, j);
      }
      forall b | b in freed ensures b !in ring && b !in pend {
        assert b in multiset(freed);
      }
    }

    /** Framing, on the memory itself: a reader that has followed the hardware words
        up to the release index, wherever in a packet that is, and reads on through
        the live slots finds exactly the packets sent. */
    lemma ReadsOn()
      requires Core(0, 0) && forall i :: 0 <= i < |sent| ==> Fits(sent[i])
      ensures slots.Length == n && relPos <= |stream| && AllOk(sent)
      ensures ReadAll(ReadAll(Reader([], None), stream[..relPos]), InOrder(n, slots[..], relPos, |stream|))
           == Reader(Descs(sent), None)
    {
      hide Stream, ReadAll, InOrder, Fits, Descs, Quiet, LastIds, Idx, AllOk;
      WindowInOrder(n, slots[..], stream, relPos, |stream|);
      assert stream == stream[..relPos] + stream[relPos..|stream|];
      hide Core, Window;
      ReadSplit(Reader([], None), stream[..relPos], stream[relPos..|stream|]);
      FramingRoundTrip([], sent);
      assert [] + Descs(sent) == Descs(sent);
    }

    /** From a packet boundary on, the live slots alone read as the packets not
        released yet. */
    lemma ReadsBack(k: nat)
      requires Core(0, 0) && k <= |sent| && relPos == |Stream(sent[..k])|
      requires forall i :: 0 <= i < |sent| ==> Fits(sent[i])
      ensures slots.Length == n && relPos <= |stream| && AllOk(sent[k..])
      ensures ReadAll(Reader([], None), InOrder(n, slots[..], relPos, |stream|)) == Reader(Descs(sent[k..]), None)
    {
      hide Stream, ReadAll, InOrder, Fits, Descs, Quiet, LastIds, Idx, AllOk;
      WindowInOrder(n, slots[..], stream, relPos, |stream|);
      StreamSuffix(sent, k);
      assert stream[relPos..|stream|] == stream[relPos..];
      hide Core, Window;
      FramingRoundTrip([], sent[k..]);
      assert [] + Descs(sent[k..]) == Descs(sent[k..]);
    }

    /** On the ring memory: the slot of any live position is one descriptor of one
        packet's frame and says what that descriptor should, CONT bit included. */
    lemma LiveSlot(c: nat, reserved: nat, uncharged: nat) returns (k: nat, i: nat)
      requires Core(reserved, uncharged) && relPos <= c < |stream|
      ensures slots.Length == n && AllOk(sent) && k < |sent| && i < sent[k].buf.DrbCnt()
      ensures c == |Stream(sent[..k])| + i && Describes(slots[Idx(n, c)], sent[k], i)
    {
      hide Stream, Frame, Quiet, LastIds, Idx, Describes;
      k, i := StreamAt(sent, c);
      FrameShape(sent[k], i);
    }

    /** Until the first flush, buffers are freed in the order they were accepted. */
    lemma FreedInOrder()
      requires Valid() && before == []
      ensures freed <= accepted
    {
      hide LastIds, Ids, PendingIds, Stream;
      StreamLastIds(sent);
      LastIdsSplit(stream[..relPos], stream[relPos..]);
      assert stream == stream[..relPos] + stream[relPos..];
      NoneBefore(freedBefore);
      FrontPart(LastIds(stream[..relPos]), LastIds(stream[relPos..]), PendingIds(pending));
    }

    /** t7xx_dpmaif_txq_init */
    constructor (size: RingSize)
      ensures Valid() && n == size && fresh(slots)
      ensures accepted == [] && freed == [] && flushed == 0 && before == [] && budget == n
    {
      n := size;
      slots := new Slot[size](_ => BlankSlot);
      queStarted, pwrOn := false, false;
      wrIdx, rdIdx, relIdx, budget := 0, 0, 0, size;
      pending, freed := [], [];
      hwRdIdx, hwWords := 0, 0;
      sent, stream, accepted, before, freedBefore := [], [], [], [], [];
      relPos, rdPos, hwPos, rung, flushed := 0, 0, 0, 0, 0;
    }

    // ----- the hardware -----

    /** The hardware reads announced descriptors. */
    method HwRead(fetched: nat, ghost reserved: nat, ghost uncharged: nat)
      requires Core(reserved, uncharged)
      modifies this`hwRdIdx, this`hwWords, this`hwPos
      ensures Core(reserved, uncharged) && old(hwPos) <= hwPos
    {
      hide Window, Quiet, LastIds, Idx, Stream, AllOk;
      var m := if fetched * UL_DRB_SIZE_WORD <= hwWords then fetched else hwWords / UL_DRB_SIZE_WORD;
      IdxAdd(n, hwPos, m);
      hwRdIdx := if hwRdIdx + m < n then hwRdIdx + m else hwRdIdx + m - n;
      hwWords := hwWords - m * UL_DRB_SIZE_WORD;
      hwPos := hwPos + m;
    }

    // ----- release -----

    /** t7xx_dpmaif_update_drb_rd_idx; report is what the register read gives. */
    method UpdateDrbRdIdx(report: nat, ghost reserved: nat, ghost uncharged: nat) returns (drbCnt: nat)
      requires Core(reserved, uncharged) && (report == hwRdIdx || report >= n)
      modifies this`rdIdx, this`rdPos
      ensures Core(reserved, uncharged)
      ensures rdPos == if queStarted && report < n then hwPos else old(rdPos)
      ensures drbCnt == rdPos - old(rdPos)
    {
      hide Window, Quiet, LastIds, Idx, Stream, AllOk;
      if !queStarted {
        return 0;
      }
      var oldSwRdIdx, newHwRdIdx := rdIdx, report;
      if newHwRdIdx >= n {
        return 0;
      }
      DistOfPositions(n, rdPos, hwPos);
      if oldSwRdIdx <= newHwRdIdx {
        drbCnt := newHwRdIdx - oldSwRdIdx;
      } else {
        drbCnt := n - oldSwRdIdx + newHwRdIdx;
      }
      rdIdx := newHwRdIdx;
      rdPos := hwPos;
    }

    /** t7xx_dpmaif_release_tx_buffer, on whatever memory it finds. */
    method ReleaseTxBuffer(releaseCnt: nat) returns (done: nat)
      requires slots.Length == n && relIdx < n
      modifies this`relIdx, this`budget, this`freed, slots
      ensures slots.Length == n && relIdx < n && done == releaseCnt
      ensures RawView() == ReleaseMany(n, old(RawView()), releaseCnt)
    {
      hide ReleaseOne;
      ghost var r := RawView();
      done := 0;
      while done < releaseCnt
        invariant 0 <= done <= releaseCnt && relIdx < n
        invariant RawView() == r
        invariant r == ReleaseMany(n, old(RawView()), done)
      {
        ReleaseTurn();
        r := ReleaseOne(n, r);
        done := done + 1;
      }
    }

    /** One turn of the release loop. */
    method ReleaseTurn()
      requires slots.Length == n && relIdx < n
      modifies this`relIdx, this`budget, this`freed, slots
      ensures slots.Length == n && relIdx < n && RawView() == ReleaseOne(n, old(RawView()))
    {
      var cur := slots[relIdx];
      if cur.DType() == DTYP_PD {
        if !cur.Cont() {
          if cur.skb.None? {
            return;
          }
          freed := freed + [cur.skb.value];
        }
        slots[relIdx] := cur.(skb := None);
      }
      relIdx := NextIdx(n, relIdx);
      budget := budget + 1;
    }

    /** Releasing descriptors the hardware has read. */
    method ReleaseRead(count: nat, ghost reserved: nat, ghost uncharged: nat)
      requires Core(reserved, uncharged) && count <= rdPos - relPos
      modifies this`relIdx, this`relPos, this`budget, this`freed, slots
      ensures Core(reserved, uncharged) && relPos == old(relPos) + count
      ensures freed == old(freed) + LastIds(stream[old(relPos)..relPos])
      ensures SameAt(n, old(slots[..]), slots[..], |stream|, |stream| + reserved + 1)
    {
      hide Idx, LastIds, AllOk, Stream, ReleaseMany, Window, Quiet, Live, WellMarked;
      AllMarked(sent);
      ReleaseLive(n, RawView(), stream, relPos, |stream|, count);
      assert stream[..relPos + count] == stream[..relPos] + stream[relPos..relPos + count];
      LastIdsSplit(stream[..relPos], stream[relPos..relPos + count]);
      ghost var raw := RawView();
      var _ := ReleaseTxBuffer(count);
      SameAtPart(n, raw.slots, slots[..], relPos + count, relPos + n, |stream|, |stream| + reserved + 1);
      hide SameAt;
      relPos := relPos + count;
    }

    /** Releasing when nothing is releasable keeps the ring's invariant only if it
        does nothing: otherwise the budget no longer matches the live descriptors. */
    method ReleaseAnyway(count: nat, ghost reserved: nat, ghost uncharged: nat)
      requires Core(reserved, uncharged)
      modifies this`relIdx, this`budget, this`freed, slots
      ensures slots.Length == n && RawView() == ReleaseMany(n, old(RawView()), count)
      ensures RawView() == old(RawView()) ==> Core(reserved, uncharged)
      ensures budget != old(budget) ==> !Core(reserved, uncharged)
    {
      hide Idx, LastIds, AllOk, Stream, ReleaseMany, Window, Quiet;
      var _ := ReleaseTxBuffer(count);
    }

    /** t7xx_dpmaif_tx_release. With something to release it frees the packets that
        end there and nothing else; with nothing to release it does to the memory
        what ReleaseMany of the whole limit does. */
    method TxRelease(limit: nat, report: nat, ghost reserved: nat, ghost uncharged: nat) returns (ret: int)
      requires Core(reserved, uncharged) && (report == hwRdIdx || report >= n)
      modifies this`rdIdx, this`rdPos, this`relIdx, this`relPos, this`budget, this`freed, slots
      ensures slots.Length == n && relPos <= |stream|
      ensures rdPos == if queStarted && report < n then hwPos else old(rdPos)
      ensures rdPos > old(relPos) ==>
                Core(reserved, uncharged)
                && relPos == (if limit == 0 || limit >= rdPos - old(relPos) then rdPos else old(relPos) + limit)
                && freed == old(freed) + LastIds(stream[old(relPos)..relPos])
                && SameAt(n, old(slots[..]), slots[..], |stream|, |stream| + reserved + 1)
                && (ret == 0 <==> relPos == rdPos)
      ensures rdPos == old(relPos) ==>
                relPos == old(relPos) && ret == 0
                && RawView() == ReleaseMany(n, old(RawView()), limit)
      ensures rdPos == old(relPos) ==> (Core(reserved, uncharged) <==> limit == 0 || Stuck(old(RawView())))
    {
      hide Core, Idx, LastIds, AllOk, Stream, ReleaseMany, SameAt, Stuck;
      Positions(reserved, uncharged);
      var _ := UpdateDrbRdIdx(report, reserved, uncharged);
      Positions(reserved, uncharged);
      CountOfPositions(n, relPos, rdPos);
      var relCnt := RdWrCount(n, relIdx, rdIdx, Read);
      var count: nat := MinNotZero(limit, relCnt);
      if relCnt > 0 {
        ReleaseRead(count, reserved, uncharged);
        Positions(reserved, uncharged);
      } else {
        ReleaseManyBudget(n, RawView(), limit);
        NoneReleased(n, RawView());
        ReleaseAnyway(count, reserved, uncharged);
      }
      ret := if count < relCnt then -EAGAIN else 0;
    }

    /** Concurrent activity between two locked sections of the push thread. */
    method Interfere(turn: Turn, ghost reserved: nat, ghost uncharged: nat)
      requires Core(reserved, uncharged)
      modifies this`hwRdIdx, this`hwWords, this`hwPos, this`rdIdx, this`rdPos, this`relIdx, this`relPos,
               this`budget, this`freed, slots
      ensures Core(reserved, uncharged) && old(relPos) <= relPos
      ensures SameAt(n, old(slots[..]), slots[..], |stream|, |stream| + reserved + 1)
    {
      hide Core, Idx, LastIds, AllOk, Stream, ReleaseMany;
      Positions(reserved, uncharged);
      HwRead(turn.fetched, reserved, uncharged);
      Positions(reserved, uncharged);
      DistOfPositions(n, relPos, hwPos);
      if queStarted && hwRdIdx != relIdx {
        var _ := TxRelease(turn.limit, hwRdIdx, reserved, uncharged);
      }
    }

    // ----- adding a packet -----

    /** The space a writer may use, as t7xx_txq_drb_wr_available counts it. */
    method DrbWrAvailable() returns (avail: nat)
      requires Core(0, 0)
      ensures avail == n - 1 - (|stream| - relPos)
    {
      hide Idx, Window, Quiet, LastIds, Stream, AllOk;
      CountOfPositions(n, relPos, |stream|);
      avail := RdWrCount(n, relIdx, wrIdx, Write);
    }

    /** Reserves the slots of a packet and writes its message descriptor. */
    method Reserve(b: Buf) returns (curIdx: nat, ghost hi: nat)
      requires Core(0, 0) && b.DrbCnt() <= n - 1 - (|stream| - relPos)
      modifies this`wrIdx, slots
      ensures Core(b.DrbCnt(), 0) && curIdx == old(wrIdx)
      ensures Built(n, slots[..], |stream|, [MsgSlot(b, hi)])
    {
      hide LastIds, Idx, Stream, AllOk, Quiet, Window, Built;
      curIdx := wrIdx;
      IdxAdd(n, |stream|, b.DrbCnt());
      wrIdx := wrIdx + b.DrbCnt();
      if wrIdx >= n {
        wrIdx := wrIdx - n;
      }
      hi := slots[curIdx].hi;
      ghost var raw := slots[..];
      StorePast(n, raw, stream, relPos, |stream|, |stream|, MsgSlot(b, hi));
      BuiltFirst(n, raw, |stream|, MsgSlot(b, hi));
      slots[curIdx] := Slot(DTYP_MSG + 4 + b.len % 0x1_0000 * 0x1_0000,
                            b.netif % 0x100 * 0x1_0000 + 0x2000_0000, slots[curIdx].hi,
                            Some(b.id), 0, 0, true, false, false);
      assert slots[..] == raw[Idx(n, |stream|) := MsgSlot(b, hi)];
    }

    /** Writes the descriptor and record of one part that is not the last. */
    method StorePart(b: Buf, k: nat, addr: nat, curIdx: nat, ghost built: seq<Slot>)
      requires Core(b.DrbCnt(), 0) && k + 1 < b.PayloadCnt() && |built| == k + 1
      requires Built(n, slots[..], |stream|, built) && curIdx == Idx(n, |stream| + |built|)
      modifies slots
      ensures Core(b.DrbCnt(), 0) && Built(n, slots[..], |stream|, built + [PdSlot(b, k, addr)])
    {
      hide LastIds, Idx, Stream, AllOk, Quiet, Window, Built;
      ghost var raw := slots[..];
      StorePast(n, raw, stream, relPos, |stream|, |stream| + |built|, PdSlot(b, k, addr));
      BuiltSnoc(n, raw, |stream|, built, PdSlot(b, k, addr));
      slots[curIdx] := Slot(DTYP_PD + 4 + b.PartLen(k) % 0x1_0000 * 0x1_0000,
                            addr % 0x1_0000_0000, addr / 0x1_0000_0000,
                            Some(b.id), addr, b.PartLen(k), false, k > 0, false);
      assert slots[..] == raw[Idx(n, |stream| + |built|) := PdSlot(b, k, addr)];
    }

    /** Writes the last part; from here on the packet is in the ring. */
    method StoreLast(b: Buf, addr: nat, curIdx: nat, ghost x: Sent)
      requires Core(b.DrbCnt(), 0) && x.Ok() && x.buf == b && x.addrs[|b.fragLens|] == addr
      requires Built(n, slots[..], |stream|, Frame(x)[..b.DrbCnt() - 1])
      requires curIdx == Idx(n, |stream| + b.DrbCnt() - 1)
      modifies this`sent, this`stream, slots
      ensures Core(0, b.DrbCnt()) && sent == old(sent) + [x] && |stream| == old(|stream|) + b.DrbCnt()
    {
      hide LastIds, Idx, Stream, AllOk, Quiet, Window, Built, Frame;
      ghost var raw := slots[..];
      var k := |b.fragLens|;
      ghost var built := Frame(x)[..b.DrbCnt() - 1];
      LastOfFrame(x);
      CommitFrame(n, raw, PdSlot(b, k, addr), stream, relPos, built);
      StreamSnoc(sent, x);
      slots[curIdx] := Slot(DTYP_PD + b.PartLen(k) % 0x1_0000 * 0x1_0000,
                            addr % 0x1_0000_0000, addr / 0x1_0000_0000,
                            Some(b.id), addr, b.PartLen(k), false, k > 0, true);
      assert slots[..] == raw[Idx(n, |stream| + |built|) := PdSlot(b, k, addr)];
      assert (stream + Frame(x))[..relPos] == stream[..relPos];
      sent := sent + [x];
      stream := stream + Frame(x);
    }

    /** The mapping error path gives the whole reservation back. */
    method RollBack(backup: nat, ghost reserved: nat)
      requires Core(reserved, 0) && backup == Idx(n, |stream|)
      modifies this`wrIdx
      ensures Core(0, 0)
    {
      hide Window, Quiet, LastIds, Idx, Stream, AllOk;
      wrIdx := backup;
    }

    method Charge(count: nat)
      requires Core(0, count)
      modifies this`budget
      ensures Core(0, 0)
    {
      hide Window, Quiet, LastIds, Idx, Stream, AllOk;
      budget := budget - count;
    }

    /** Activity before a part is written leaves the part of the frame written so far. */
    method InterfereBuilt(turn: Turn, ghost reserved: nat, ghost built: seq<Slot>)
      requires Core(reserved, 0) && Built(n, slots[..], |stream|, built) && |built| <= reserved
      modifies this`hwRdIdx, this`hwWords, this`hwPos, this`rdIdx, this`rdPos, this`relIdx, this`relPos,
               this`budget, this`freed, slots
      ensures Core(reserved, 0) && old(relPos) <= relPos && Built(n, slots[..], |stream|, built)
    {
      hide Core, Built, SameAt;
      Positions(reserved, 0);
      ghost var before := slots[..];
      Interfere(turn, reserved, 0);
      Positions(reserved, 0);
      SameAtPart(n, before, slots[..], |stream|, |stream| + reserved + 1, |stream|, |stream| + |built|);
      BuiltSame(n, before, slots[..], |stream|, built, |stream|);
    }

    /** The payload loop of t7xx_dpmaif_add_skb_to_ring. */
    method WriteParts(b: Buf, answer: AddAnswer, msgIdx: nat, ghost hi: nat) returns (ok: bool, ghost addrs: seq<nat>)
      requires Core(b.DrbCnt(), 0) && msgIdx == Idx(n, |stream|)
      requires Built(n, slots[..], |stream|, PartialFrame(b, hi, []))
      modifies this`sent, this`stream, this`hwRdIdx, this`hwWords, this`hwPos, this`rdIdx, this`rdPos,
               this`relIdx, this`relPos, this`budget, this`freed, slots
      ensures old(relPos) <= relPos
      ensures ok <==> |addrs| == b.PayloadCnt()
      ensures Mapped(answer.maps, addrs)
      ensures !ok ==> |addrs| < b.PayloadCnt() && MapAt(answer.maps, |addrs|).None?
      ensures !ok ==> Core(b.DrbCnt(), 0) && sent == old(sent) && stream == old(stream)
      ensures ok ==> Core(0, b.DrbCnt()) && |stream| == old(|stream|) + b.DrbCnt()
      ensures ok ==> sent == old(sent) + [Sent(b, addrs, hi)]
    {
      hide Core, Idx, AllOk, Built, PdSlot, MsgSlot, PartialFrame, TurnAt, MapAt, Mapped;
      var payloadCnt := b.PayloadCnt();
      var curIdx := msgIdx;
      addrs := [];
      MappedSnoc(answer.maps, addrs);
      var wrCnt := 0;
      while wrCnt < payloadCnt - 1
        invariant 0 <= wrCnt == |addrs| <= payloadCnt - 1
        invariant Mapped(answer.maps, addrs) && old(relPos) <= relPos
        invariant Core(b.DrbCnt(), 0) && sent == old(sent) && stream == old(stream)
        invariant curIdx == Idx(n, |stream| + wrCnt)
        invariant Built(n, slots[..], |stream|, PartialFrame(b, hi, addrs))
      {
        InterfereBuilt(TurnAt(answer.turns, wrCnt), b.DrbCnt(), PartialFrame(b, hi, addrs));
        var map_ := MapAt(answer.maps, wrCnt);
        if map_.None? {
          return false, addrs;
        }
        NextIdxOfPosition(n, |stream| + wrCnt);
        curIdx := NextIdx(n, curIdx);
        StorePart(b, wrCnt, map_.value, curIdx, PartialFrame(b, hi, addrs));
        PartialSnoc(b, hi, addrs, map_.value);
        MappedSnoc(answer.maps, addrs);
        addrs := addrs + [map_.value];
        wrCnt := wrCnt + 1;
      }
      InterfereBuilt(TurnAt(answer.turns, wrCnt), b.DrbCnt(), PartialFrame(b, hi, addrs));
      var map_ := MapAt(answer.maps, wrCnt);
      if map_.None? {
        return false, addrs;
      }
      NextIdxOfPosition(n, |stream| + wrCnt);
      curIdx := NextIdx(n, curIdx);
      MappedSnoc(answer.maps, addrs);
      PartialDone(b, hi, addrs + [map_.value]);
      assert (addrs + [map_.value])[..wrCnt] == addrs;
      addrs := addrs + [map_.value];
      StoreLast(b, map_.value, curIdx, Sent(b, addrs, hi));
      ok := true;
    }

    /** t7xx_dpmaif_add_skb_to_ring: the packet goes in whole, or not at all. */
    method AddSkbToRing(b: Buf, answer: AddAnswer) returns (ret: int)
      requires Core(0, 0) && b.DrbCnt() <= n - 1 - (|stream| - relPos)
      modifies this`wrIdx, this`sent, this`stream, this`hwRdIdx, this`hwWords, this`hwPos, this`rdIdx, this`rdPos,
               this`relIdx, this`relPos, this`budget, this`freed, slots
      ensures Core(0, 0) && ret <= 0 && old(relPos) <= relPos
      ensures ret == 0 <==> queStarted && pwrOn && AllMapped(b, answer)
      ensures ret == 0 ==> |stream| == old(|stream|) + b.DrbCnt()
      ensures ret == 0 ==> |sent| == |old(sent)| + 1 && old(sent) == sent[..|old(sent)|]
      ensures ret == 0 ==> sent[|sent| - 1].Ok() && sent[|sent| - 1].buf == b
      ensures ret == 0 ==> Mapped(answer.maps, sent[|sent| - 1].addrs)
      ensures ret < 0 ==> sent == old(sent) && stream == old(stream)
    {
      hide Core, Idx, AllOk, Built, PartialFrame;
      if !queStarted || !pwrOn {
        return -ENODEV;
      }
      Positions(0, 0);
      var backup := wrIdx;
      var msgIdx;
      ghost var hi, addrs;
      msgIdx, hi := Reserve(b);
      PartialSnoc(b, hi, [], 0);
      var ok;
      ok, addrs := WriteParts(b, answer, msgIdx, hi);
      if !ok {
        RollBack(backup, b.DrbCnt());
        return -ENOMEM;
      }
      Charge(b.DrbCnt());
      ret := 0;
    }

    // ----- the push thread -----

    /** t7xx_dpmaif_tx_send_skb; the budget is compared as an unsigned number. */
    method TxSendSkb(b: Buf) returns (ret: int)
      modifies this`pending, this`accepted
      ensures old(Accounted()) ==> Accounted()
      ensures old(Valid()) ==> Valid()
      ensures ret == if ToU32(budget) <= b.DrbCnt() then -EBUSY else 0
      ensures 0 <= budget < TWO_32 ==> (ret == 0 <==> budget > |b.fragLens| + 2)
      ensures ret == 0 ==> pending == old(pending) + [b] && accepted == old(accepted) + [b.id]
      ensures ret != 0 ==> pending == old(pending) && accepted == old(accepted)
    {
      hide Core, Ids;
      if ToU32(budget) <= b.DrbCnt() {
        return -EBUSY;
      }
      assert PendingIds(pending + [b]) == PendingIds(pending) + [b.id];
      pending := pending + [b];
      accepted := accepted + [b.id];
      ret := 0;
    }

    /** Other threads submit buffers; got are those accepted. */
    method Arrive(bufs: seq<Buf>) returns (ghost got: seq<Buf>)
      modifies this`pending, this`accepted
      ensures old(Accounted()) ==> Accounted()
      ensures pending == old(pending) + got && accepted == old(accepted) + PendingIds(got)
      ensures forall b :: b in got ==> b in bufs
    {
      hide Accounted, PendingIds;
      got := [];
      PendingConcat([], []);
      var i := 0;
      while i < |bufs|
        invariant 0 <= i <= |bufs|
        invariant old(Accounted()) ==> Accounted()
        invariant pending == old(pending) + got && accepted == old(accepted) + PendingIds(got)
        invariant forall b :: b in got ==> b in bufs
      {
        var ret := TxSendSkb(bufs[i]);
        if ret == 0 {
          OneId(bufs[i]);
          PendingConcat(got, [bufs[i]]);
          got := got + [bufs[i]];
        }
        i := i + 1;
      }
    }

    /** One packet of a burst moves from the list to the ring; got arrived meanwhile. */
    method SendHead(answer: AddAnswer) returns (ret: int, ghost got: seq<Buf>)
      requires Valid() && pending != [] && pending[0].DrbCnt() <= n - 1 - (|stream| - relPos)
      modifies this`wrIdx, this`sent, this`stream, this`hwRdIdx, this`hwWords, this`hwPos, this`rdIdx, this`rdPos,
               this`relIdx, this`relPos, this`budget, this`freed, this`pending, this`accepted, slots
      ensures Valid() && ret <= 0 && old(relPos) <= relPos
      ensures ret == 0 <==> queStarted && pwrOn
                            && AllMapped(old(pending)[0], answer)
      ensures accepted == old(accepted) + PendingIds(got) && forall b :: b in got ==> b in answer.late
      ensures ret == 0 ==> |stream| == old(|stream|) + old(pending)[0].DrbCnt() && pending == (old(pending) + got)[1..]
      ensures ret == 0 ==> Bufs(sent) == Bufs(old(sent)) + [old(pending)[0]]
      ensures ret < 0 ==> sent == old(sent) && stream == old(stream) && pending == old(pending) && got == []
    {
      hide Core, Idx, AllOk, Stream, LastIds, Mapped;
      got := [];
      var skb := pending[0];
      ret := AddSkbToRing(skb, answer);
      if ret == 0 {
        assert Ids(sent) == Ids(old(sent)) + [skb.id];
        assert Bufs(sent) == Bufs(old(sent)) + [skb];
        got := Arrive(answer.late);
        UnlinkAccounts(before, Ids(old(sent)), skb, old(pending), got);
        pending := pending[1..];
      }
    }

    /** The activity before the list is looked at, with the bookkeeping of a burst. */
    method Meanwhile(answers: seq<AddAnswer>, i: nat, ghost acc0: seq<nat>, ghost list0: seq<Buf>,
                     ghost arrived0: seq<Buf>, ghost was: seq<Sent>, ghost moved: nat)
        returns (ghost arrived: seq<Buf>)
      requires Valid() && Arrived(answers, acc0, accepted, arrived0)
      requires MovedBy(list0 + arrived0, pending, was, sent, moved)
      modifies this`hwRdIdx, this`hwWords, this`hwPos, this`rdIdx, this`rdPos, this`relIdx, this`relPos,
               this`budget, this`freed, this`pending, this`accepted, slots
      ensures Valid() && old(relPos) <= relPos && old(pending) <= pending
      ensures Arrived(answers, acc0, accepted, arrived) && MovedBy(list0 + arrived, pending, was, sent, moved)
    {
      hide Core, Accounted, Arrived, MovedBy, AnswerAt, PendingIds;
      Interfere(AnswerAt(answers, i).before, 0, 0);
      ghost var list := pending;
      ghost var got := Arrive(AnswerAt(answers, i).early);
      ArrivedMore(answers, i, acc0, arrived0, got);
      MovedArrive(list0, arrived0, got, list, was, sent, moved);
      arrived := arrived0 + got;
    }

    /** Sending the first packet, with the bookkeeping of a burst. */
    method SendNext(answers: seq<AddAnswer>, i: nat, ghost acc0: seq<nat>, ghost list0: seq<Buf>,
                    ghost arrived0: seq<Buf>, ghost was: seq<Sent>, ghost moved0: nat)
        returns (ret: int, ghost arrived: seq<Buf>, ghost moved: nat)
      requires Valid() && pending != [] && pending[0].DrbCnt() <= n - 1 - (|stream| - relPos)
      requires Arrived(answers, acc0, accepted, arrived0) && MovedBy(list0 + arrived0, pending, was, sent, moved0)
      modifies this`wrIdx, this`sent, this`stream, this`hwRdIdx, this`hwWords, this`hwPos, this`rdIdx, this`rdPos,
               this`relIdx, this`relPos, this`budget, this`freed, this`pending, this`accepted, slots
      ensures Valid() && ret <= 0 && old(relPos) <= relPos
      ensures ret == 0 <==> queStarted && pwrOn && AllMapped(old(pending)[0], AnswerAt(answers, i))
      ensures |stream| == old(|stream|) + if ret == 0 then old(pending)[0].DrbCnt() else 0
      ensures moved == moved0 + if ret == 0 then 1 else 0
      ensures Arrived(answers, acc0, accepted, arrived) && MovedBy(list0 + arrived, pending, was, sent, moved)
    {
      hide Core, Accounted, Arrived, MovedBy, AnswerAt, AllMapped, PendingIds, Bufs;
      ghost var list, sent0 := pending, sent;
      ghost var got;
      ret, got := SendHead(AnswerAt(answers, i));
      ArrivedMore(answers, i, acc0, arrived0, got);
      arrived := arrived0 + got;
      if ret == 0 {
        MovedSend(list0, arrived0, got, list, was, sent0, sent, moved0);
        moved := moved0 + 1;
      } else {
        assert arrived == arrived0;
        moved := moved0;
      }
    }

    /** t7xx_txq_burst_send_skb: however the burst ends and whatever is released and
        submitted meanwhile, the result counts the descriptors the ring really gained,
        no packet is written over a live descriptor, and the packets that moved are the
        first ones of the list. */
    method BurstSendSkb(answers: seq<AddAnswer>) returns (ret: int, ghost arrived: seq<Buf>)
      requires Valid()
      modifies this`wrIdx, this`sent, this`stream, this`hwRdIdx, this`hwWords, this`hwPos, this`rdIdx, this`rdPos,
               this`relIdx, this`relPos, this`budget, this`freed, this`pending, this`accepted, slots
      ensures Valid()
      ensures |stream| == old(|stream|) + if ret > 0 then ret else 0
      ensures Admits(old(pending), n - 1 - (old(|stream|) - old(relPos)), answers) && queStarted && pwrOn ==> ret > 0
      ensures Arrived(answers, old(accepted), accepted, arrived)
      ensures exists k :: 0 <= k <= SKB_TX_BURST_CNT && MovedBy(old(pending) + arrived, pending, old(sent), sent, k)
    {
      hide Core, Accounted, Idx, AllOk, Stream, LastIds, Mapped, AllMapped, Arrived, MovedBy, AnswerAt;
      var drbCnt := 0;
      ret, arrived := 0, [];
      var remain := DrbWrAvailable();
      ghost var moved := 0;
      ghost var admitted := Admits(pending, n - 1 - (|stream| - relPos), answers) && queStarted && pwrOn;
      BurstStarts(answers, accepted, pending, sent);
      var i := 0;
      while i < SKB_TX_BURST_CNT
        invariant 0 <= i <= SKB_TX_BURST_CNT && 0 <= moved <= i
        invariant Valid() && remain <= n - 1 - (|stream| - relPos) && ret <= 0
        invariant |stream| == old(|stream|) + drbCnt
        invariant i == 0 ==> remain == n - 1 - (old(|stream|) - old(relPos)) && pending == old(pending)
        invariant i > 0 && admitted ==> drbCnt > 0
        invariant Arrived(answers, old(accepted), accepted, arrived)
        invariant MovedBy(old(pending) + arrived, pending, old(sent), sent, moved)
      {
        arrived := Meanwhile(answers, i, old(accepted), old(pending), arrived, old(sent), moved);
        if pending == [] {
          break;
        }
        var skb := pending[0];
        var sendDrbCnt := skb.DrbCnt();
        if remain < sendDrbCnt {
          remain := DrbWrAvailable();
          i := i + 1;
          continue;
        }
        remain := remain - sendDrbCnt;
        ret, arrived, moved := SendNext(answers, i, old(accepted), old(pending), arrived, old(sent), moved);
        if ret < 0 {
          break;
        }
        drbCnt := drbCnt + sendDrbCnt;
        i := i + 1;
      }
      if drbCnt > 0 {
        ret := drbCnt;
      }
    }

    /** One round of t7xx_do_tx_hw_push, and whether there is another. Every descriptor
        of the round is announced unless the sleep lock is not obtained. */
    method HwPush(answers: seq<AddAnswer>, sleepLocked: bool, stop: bool) returns (go: bool)
      requires Valid()
      modifies this`wrIdx, this`sent, this`stream, this`hwRdIdx, this`hwWords, this`hwPos, this`rdIdx, this`rdPos,
               this`relIdx, this`relPos, this`budget, this`freed, this`pending, this`accepted, this`rung, slots
      ensures Valid() && old(accepted) <= accepted && old(|stream|) <= |stream|
      ensures rung == old(rung) + if sleepLocked then |stream| - old(|stream|) else 0
      ensures !queStarted ==> |stream| == old(|stream|) && pending == old(pending)
      ensures go <==> queStarted && (sleepLocked || |stream| == old(|stream|)) && pending != [] && !stop && pwrOn
    {
      hide Window, Quiet, LastIds, Idx, Stream, AllOk, Ids, MovedBy, Offers;
      if !queStarted {
        return false;
      }
      var drbSendCnt;
      ghost var arrived;
      drbSendCnt, arrived := BurstSendSkb(answers);
      if drbSendCnt > 0 {
        if !sleepLocked {
          return false;
        }
        hwWords := hwWords + drbSendCnt * UL_DRB_SIZE_WORD;
        rung := rung + drbSendCnt;
      }
      go := pending != [] && !stop && pwrOn;
    }

    // ----- flush -----

    /** t7xx_dpmaif_tx_free_drb_skb */
    method TxFreeDrbSkb()
      requires slots.Length == n
      modifies this`freed, slots
      ensures freed == old(freed) + LastIds(old(slots[..]))
      ensures FreedSlots(old(slots[..]), slots[..])
    {
      hide LastIds;
      ghost var was := slots[..];
      LastIdsSnoc([], BlankSlot);
      assert was[..0] == [];
      for i := 0 to n
        invariant freed == old(freed) + LastIds(was[..i])
        invariant forall j :: 0 <= j < n ==>
                    slots[j] == if j < i && EndsOwned(was[j]) then was[j].(skb := None) else was[j]
      {
        assert was[..i + 1] == was[..i] + [was[i]];
        LastIdsSnoc(was[..i], was[i]);
        if slots[i].skb.Some? && slots[i].isLast {
          freed := freed + [slots[i].skb.value];
          slots[i] := slots[i].(skb := None);
        }
      }
      assert was[..n] == was;
    }

    /** t7xx_dpmaif_txq_flush_rel, with the hardware restarted. Everything in the ring
        is freed exactly once; the budget keeps what the live descriptors cost. */
    method TxqFlushRel()
      requires Valid()
      modifies this`queStarted, this`wrIdx, this`rdIdx, this`relIdx, this`freed, this`hwRdIdx, this`hwWords,
               this`sent, this`stream, this`relPos, this`rdPos, this`hwPos, this`rung,
               this`before, this`freedBefore, this`flushed, slots
      ensures Valid() && sent == [] && !queStarted && budget == old(budget)
      ensures flushed == old(flushed) + (old(|stream|) - old(relPos))
      ensures old(freed) <= freed
      ensures SameBag(freed[|old(freed)|..], old(InRing()))
    {
      hide Core, Idx, Window, Quiet, Stream, LastIds, Ids, AllOk, PendingIds, FreedSlots, SameBag;
      FlushFacts();
      ghost var was := slots[..];
      ghost var ring := LastIds(slots[..]);
      ghost var live := |stream| - relPos;
      queStarted := false;
      TxFreeDrbSkb();
      assert freed[|old(freed)|..] == ring;
      before := before + Ids(sent);
      ResetIndices(was, live);
    }

    /** The index reset at the end of the flush and of the hardware restart. */
    method ResetIndices(ghost was: seq<Slot>, ghost live: nat)
      requires slots.Length == n && FreedSlots(was, slots[..]) && budget == n - live - flushed
      modifies this`wrIdx, this`rdIdx, this`relIdx, this`hwRdIdx, this`hwWords, this`sent, this`stream,
               this`relPos, this`rdPos, this`hwPos, this`rung, this`freedBefore, this`flushed
      ensures Core(0, 0) && sent == [] && freedBefore == freed && flushed == old(flushed) + live
    {
      hide Idx, Window, Quiet, Stream, LastIds, AllOk, FreedSlots;
      EmptyRing(n, was, slots[..]);
      rdIdx, wrIdx, relIdx, hwRdIdx, hwWords := 0, 0, 0, 0, 0;
      sent, stream := [], [];
      relPos, rdPos, hwPos, rung := 0, 0, 0, 0;
      freedBefore := freed;
      flushed := flushed + live;
    }

    /** The buffers a flush finds are those of the live descriptors, and with them
        everything that was ever put into the ring has been freed. */
    lemma FlushFacts()
      requires Valid()
      ensures slots.Length == n && relPos <= |stream| && budget == n - (|stream| - relPos) - flushed
      ensures SameBag(LastIds(slots[..]), InRing())
      ensures SameBag(freed + LastIds(slots[..]), before + Ids(sent))
      ensures accepted == (before + Ids(sent)) + Ids([]) + PendingIds(pending)
    {
      hide Idx, Window, Quiet, Stream, LastIds, PendingIds;
      FlushOwners(n, slots[..], stream, relPos, |stream|);
      assert stream[relPos..|stream|] == stream[relPos..];
      StreamLastIds(sent);
      LastIdsSplit(stream[..relPos], stream[relPos..]);
      assert stream == stream[..relPos] + stream[relPos..];
      FlushSums(before, freedBefore, LastIds(stream[..relPos]), InRing(), LastIds(slots[..]));
      FlushAccounts(before, sent, PendingIds(pending));
    }
  }

  lemma OneId(b: Buf)
    ensures PendingIds([b]) == [b.id]
  {
  }

  /** The first k packets of a list went into the ring, the rest is pending. */
  predicate MovedBy(list: seq<Buf>, pending: seq<Buf>, was: seq<Sent>, sent: seq<Sent>, k: nat) {
    k <= |list| && Bufs(sent) == Bufs(was) + list[..k] && pending == list[k..]
  }

  /** The buffers accepted since a burst began are those that arrived, all of them
      offered by other threads. */
  predicate Arrived(answers: seq<AddAnswer>, was: seq<nat>, accepted: seq<nat>, arrived: seq<Buf>) {
    accepted == was + PendingIds(arrived) && forall b :: b in arrived ==> b in Offers(answers)
  }

  lemma BurstStarts(answers: seq<AddAnswer>, accepted: seq<nat>, pending: seq<Buf>, sent: seq<Sent>)
    ensures Arrived(answers, accepted, accepted, []) && MovedBy(pending + [], pending, sent, sent, 0)
  {
  }

  lemma ArrivedMore(answers: seq<AddAnswer>, i: nat, was: seq<nat>, arrived: seq<Buf>, got: seq<Buf>)
    requires forall b :: b in got ==> b in AnswerAt(answers, i).early || b in AnswerAt(answers, i).late
    ensures forall acc :: Arrived(answers, was, acc, arrived) ==>
              Arrived(answers, was, acc + PendingIds(got), arrived + got)
  {
    OffersHas(answers, i);
    PendingConcat(arrived, got);
  }

  lemma MovedArrive(pending: seq<Buf>, arrived: seq<Buf>, got: seq<Buf>, list: seq<Buf>,
                    was: seq<Sent>, sent: seq<Sent>, k: nat)
    requires MovedBy(pending + arrived, list, was, sent, k)
    ensures MovedBy(pending + (arrived + got), list + got, was, sent, k)
  {
    assert (pending + arrived)[..k] == (pending + (arrived + got))[..k];
  }

  lemma MovedSend(pending: seq<Buf>, arrived: seq<Buf>, got: seq<Buf>, list: seq<Buf>,
                  was: seq<Sent>, sent: seq<Sent>, after: seq<Sent>, k: nat)
    requires MovedBy(pending + arrived, list, was, sent, k) && list != []
    requires Bufs(after) == Bufs(sent) + [list[0]]
    ensures MovedBy(pending + (arrived + got), (list + got)[1..], was, after, k + 1)
  {
    hide Bufs;
    assert (pending + arrived)[..k] + [list[0]] == (pending + (arrived + got))[..k + 1];
  }

  lemma UnlinkAccounts(before: seq<nat>, ids: seq<nat>, skb: Buf, pending: seq<Buf>, got: seq<Buf>)
    requires pending != [] && pending[0] == skb
    ensures before + ids + PendingIds(pending) + PendingIds(got)
         == before + (ids + [skb.id]) + PendingIds((pending + got)[1..])
  {
    PendingConcat(pending, got);
    assert PendingIds(pending + got) == [skb.id] + PendingIds((pending + got)[1..]);
    hide PendingIds;
    var rest := PendingIds((pending + got)[1..]);
    assert before + ids + (PendingIds(pending) + PendingIds(got)) == before + ids + PendingIds(pending) + PendingIds(got);
    assert before + ids + ([skb.id] + rest) == before + (ids + [skb.id]) + rest;
  }

  lemma NoneReleased(n: RingSize, r: Raw)
    requires RawOk(n, r)
    ensures ReleaseMany(n, r, 0) == r
  {
  }

  lemma FlushSums(before: seq<nat>, freedBefore: seq<nat>, out: seq<nat>, live: seq<nat>, ring: seq<nat>)
    requires multiset(before) == multiset(freedBefore) && multiset(live) == multiset(ring)
    ensures multiset(before + (out + live)) == multiset((freedBefore + out) + ring)
  {
  }

  lemma FlushAccounts(before: seq<nat>, sent: seq<Sent>, pending: seq<nat>)
    ensures before + Ids(sent) + pending == (before + Ids(sent)) + Ids([]) + pending
  {
  }

  /** A table before and after its owners were freed. */
  predicate FreedSlots(was: seq<Slot>, now: seq<Slot>) {
    && |was| == |now|
    && (forall i :: 0 <= i < |now| ==> now[i] == if EndsOwned(was[i]) then was[i].(skb := None) else was[i])
  }

  /** The empty ring after a flush. */
  lemma EmptyRing(n: RingSize, was: seq<Slot>, slots: seq<Slot>)
    requires |slots| == n && FreedSlots(was, slots)
    ensures AllOk([]) && Stream([]) == [] && Idx(n, 0) == 0
    ensures Window(n, slots, [], 0, 0) && Quiet(n, slots, 0, 0)
    ensures LastIds([]) == []
  {
  }

  lemma SameAtPart(n: RingSize, a: seq<Slot>, b: seq<Slot>, from: nat, to: nat, f: nat, t: nat)
    requires SameAt(n, a, b, from, to) && from <= f && t <= to
    ensures SameAt(n, a, b, f, t)
  {
  }

  lemma SumParts(x: seq<nat>, y: seq<nat>, a: seq<nat>, b: seq<nat>, p: seq<nat>)
    requires multiset(x) == multiset(y)
    ensures multiset(x + (a + b) + p) == multiset(y + a) + multiset(b) + multiset(p)
  {
    assert x + (a + b) + p == ((x + a) + b) + p;
  }

  lemma NoneBefore(x: seq<nat>)
    requires multiset(x) == multiset([])
    ensures x == []
  {
    assert |multiset(x)| == |x|;
  }

  lemma FrontPart(a: seq<nat>, b: seq<nat>, p: seq<nat>)
    ensures [] + a <= [] + (a + b) + p
  {
  }

  lemma AllMarked(sent: seq<Sent>)
    requires AllOk(sent)
    ensures forall c :: 0 <= c < |Stream(sent)| ==> WellMarked(Stream(sent)[c])
  {
    forall c | 0 <= c < |Stream(sent)| ensures WellMarked(Stream(sent)[c]) {
      StreamWellMarked(sent, c);
    }
  }
}
