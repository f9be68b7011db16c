/** struct dpmaif_rx_queue: the completion (PIT) ring, its consumption in budgeted
    batches and the NAPI poll (src/t7xx_hif_dpmaif_rx.c:236-265, 462-477, 556-569,
    718-888). Positions count entries since the queue was started. */
module PitRing {
  import opened Ring
  import opened Reassembly
  import opened Errno

  const PIT_CNT_THRESHOLD := 60
  const NOTIFY_RELEASE_COUNT := 128
  const PIT_COUNT := 16384

  /** Answers of the environment, beyond the list the given default. */
  function TakeAt(takes: seq<Take>, i: nat): Take {
    if i < |takes| then takes[i] else Failed
  }

  function Answer(bits: seq<bool>, i: nat): bool {
    i < |bits| && bits[i]
  }

  function FirstTakes(takes: seq<Take>, k: nat): (r: seq<Take>)
    ensures |r| == k
  {
    seq(k, i requires 0 <= i < k => TakeAt(takes, i))
  }

  /** The entries from one position to another carry the numbers expected there. */
  ghost predicate Numbered(stream: seq<Pit>, from: nat, to: nat) {
    to <= |stream| && forall c :: from <= c < to ==> stream[c].SeqNo() == c % PIT_SEQ_VALUE
  }

  /** How the hardware adds an entry: with its content, or the index first while the
      memory still holds what it held. */
  datatype Write = Content(pit: Pit) | IndexFirst

  /** What one round of a poll meets: entries whose content arrives late (distance from
      the read index, and content), entries the hardware adds before the index read, outcomes of taking
      buffers, answers to the release doorbells. */
  datatype Round = Round(completions: seq<(nat, Pit)>, arrivals: seq<Write>, takes: seq<Take>, doorbells: seq<bool>)

  function RoundAt(rounds: seq<Round>, i: nat): Round {
    if i < |rounds| then rounds[i] else Round([], [], [], [])
  }

  predicate NoCompletions(rounds: seq<Round>) {
    forall i :: 0 <= i < |rounds| ==> rounds[i].completions == []
  }

  /** The stream grew, and what was consumed of it is as it was. */
  predicate Continues(was: seq<Pit>, stream: seq<Pit>, consumed: nat) {
    consumed <= |was| <= |stream| && was[..consumed] == stream[..consumed]
  }

  /** The ring memory holds the last turn of the stream, zeroes where nothing was
      written yet. */
  ghost predicate Remembers(n: RingSize, mem: seq<Pit>, stream: seq<Pit>) {
    && |mem| == n
    && (forall c :: 0 <= c < |stream| <= c + n ==> mem[Idx(n, c)] == stream[c])
    && (forall c :: |stream| <= c < n ==> mem[c] == Pit(0, 0))
  }

  lemma RemembersAt(n: RingSize, mem: seq<Pit>, stream: seq<Pit>, c: nat)
    requires Remembers(n, mem, stream) && c < |stream| <= c + n
    ensures |mem| == n && mem[Idx(n, c)] == stream[c]
  {
  }

  lemma RemembersStart(n: RingSize, mem: seq<Pit>)
    requires |mem| == n && forall i :: 0 <= i < n ==> mem[i] == Pit(0, 0)
    ensures Remembers(n, mem, [])
  {
  }

  lemma RemembersMore(n: RingSize, mem: seq<Pit>, stream: seq<Pit>, pit: Pit)
    requires Remembers(n, mem, stream)
    ensures Remembers(n, mem[Idx(n, |stream|) := pit], stream + [pit])
  {
    var e := |stream|;
    forall c | 0 <= c < e < c + n ensures Idx(n, c) != Idx(n, e) {
      if Idx(n, c) == Idx(n, e) {
        IdxInjective(n, c, c, e);
      }
    }
  }

  lemma RemembersUpdate(n: RingSize, mem: seq<Pit>, stream: seq<Pit>, k: nat, pit: Pit)
    requires Remembers(n, mem, stream) && k < |stream| < k + n
    ensures Remembers(n, mem[Idx(n, k) := pit], stream[k := pit])
  {
    forall c | 0 <= c < |stream| <= c + n && c != k ensures Idx(n, c) != Idx(n, k) {
      if Idx(n, c) == Idx(n, k) {
        IdxInjective(n, |stream| - n, c, k);
      }
    }
  }

  /** Of the first k entries of a batch, those up to the last release notification. */
  function Renewed(k: nat): nat {
    if k <= NOTIFY_RELEASE_COUNT then 0 else (k - 1) / NOTIFY_RELEASE_COUNT * NOTIFY_RELEASE_COUNT + 1
  }

  lemma RenewedStep(k: nat)
    ensures Renewed(0) == 0 && Renewed(k) <= k && (k <= NOTIFY_RELEASE_COUNT ==> Renewed(k) == 0)
    ensures k > NOTIFY_RELEASE_COUNT ==> 0 < Renewed(k) && k - Renewed(k) < NOTIFY_RELEASE_COUNT
    ensures Renewed(k + 1) == if k > 0 && k % NOTIFY_RELEASE_COUNT == 0 then k + 1 else Renewed(k)
  {
  }

  lemma LastPayloadNext(stream: seq<Pit>, c: nat)
    requires c < |stream|
    ensures LastPayload(stream, c + 1) == if stream[c].IsMsg() then LastPayload(stream, c) else c
  {
  }

  class RxQueue {
    const n: RingSize
    const pitBase: array<Pit>
    var queStarted: bool
    var pitRdIdx: nat
    var pitWrIdx: nat
    var pitReleaseRdIdx: nat
    var expectPitSeq: nat
    var pitRemainReleaseCnt: nat
    var rxDataInfo: Info
    var hwWrIdx: nat             // the hardware's write index register
    var hwFree: int              // entries the hardware may still write

    var sleepLockPending: bool

    ghost var stream: seq<Pit>   // entries the hardware has written since start
    ghost var takes: seq<Take>   // outcomes for the consumed entries
    ghost var consumed: nat
    ghost var released: nat
    ghost var polled: nat        // hardware write position at the last index read
    ghost var events: seq<Event> // what has come out of the reassembler

    /** The ring refines the counters, and everything that came out so far is what
        one uninterrupted pass over the consumed entries gives. */
    ghost predicate Valid()
      reads this, pitBase
    {
      && pitBase.Length == n
      && released <= consumed <= polled <= |stream| < released + n
      && pitRdIdx == Idx(n, consumed)
      && pitWrIdx == Idx(n, polled)
      && hwWrIdx == Idx(n, |stream|)
      && hwFree == n - 1 - (|stream| - released)
      && pitReleaseRdIdx == Idx(n, released)
      && pitRemainReleaseCnt == consumed - released
      && expectPitSeq == consumed % PIT_SEQ_VALUE
      && Remembers(n, pitBase[..], stream)
      && Numbered(stream, 0, consumed)
      && |takes| == consumed
      && Feed(ZeroInfo, stream[..consumed], takes) == Result(rxDataInfo, events)
    }

    /** The next entry is there but does not carry the expected number. */
    ghost predicate Mismatched()
      reads this`consumed, this`stream
    {
      consumed < |stream| && stream[consumed].SeqNo() != consumed % PIT_SEQ_VALUE
    }

    /** What a poll reports as an error: entries could not be given back, or the last
        payload could not be added. */
    ghost predicate Faulty()
      reads this`consumed, this`released, this`stream, this`takes
    {
      && released <= consumed <= |stream| && |takes| == consumed
      && (consumed - released >= PIT_CNT_THRESHOLD || LastPayloadBad(stream[..consumed], takes))
    }

    /** The last payload entry consumed failed, and it is at a position or later. */
    ghost predicate BadSince(from: nat)
      reads this`consumed, this`stream, this`takes
    {
      && consumed <= |stream| && |takes| == consumed
      && LastPayloadBad(stream[..consumed], takes) && LastPayload(stream, consumed) >= from
    }

    lemma NotBadSinceNow()
      requires consumed <= |stream|
      ensures !BadSince(consumed)
    {
    }

    /** What has come out, told from the entries alone: per packet end the packet, its
        buffer freed, or nothing. */
    lemma OutcomesOnly()
      requires Valid()
      ensures consumed <= |stream| && |takes| == consumed
      ensures events == AllOutcomes(stream[..consumed], takes, consumed)
      ensures Means(rxDataInfo, stream[..consumed], takes, PacketStart(stream[..consumed], consumed), consumed)
    {
      hide Feed, Means, Remembers, Numbered;
      FeedMeans(stream[..consumed], takes, consumed);
      assert stream[..consumed][..consumed] == stream[..consumed] && takes[..consumed] == takes;
    }

    lemma Bounds()
      requires Valid()
      ensures released <= consumed <= polled <= |stream| && pitBase.Length == n && |takes| == consumed
      ensures Feed(ZeroInfo, stream[..consumed], takes) == Result(rxDataInfo, events)
    {
    }

    /** t7xx_dpmaif_rx_alloc */
    constructor (size: RingSize)
      ensures Valid() && n == size && fresh(pitBase)
      ensures stream == [] && events == [] && rxDataInfo == ZeroInfo && consumed == 0 && !queStarted
    {
      n := size;
      pitBase := new Pit[size](_ => Pit(0, 0));
      queStarted, sleepLockPending := false, false;
      pitRdIdx, pitWrIdx, pitReleaseRdIdx, expectPitSeq, pitRemainReleaseCnt, hwWrIdx := 0, 0, 0, 0, 0, 0;
      hwFree := size - 1;
      rxDataInfo := ZeroInfo;
      stream, takes, events := [], [], [];
      consumed, released, polled := 0, 0, 0;
      new;
      RemembersStart(n, pitBase[..]);
    }

    // ----- the hardware -----

    method HwWrite(w: Write)
      requires Valid() && hwFree > 0
      modifies this`stream, this`hwWrIdx, this`hwFree, pitBase
      ensures Valid() && hwFree == old(hwFree) - 1
      ensures stream == old(stream) + [if w.Content? then w.pit else old(pitBase[Idx(n, |stream|)])]
    {
      hide Feed, Idx, Remembers;
      NextIdxOfPosition(n, |stream|);
      var pit := if w.Content? then w.pit else pitBase[hwWrIdx];
      RemembersMore(n, pitBase[..], stream, pit);
      ghost var mem := pitBase[..];
      pitBase[hwWrIdx] := pit;
      assert pitBase[..] == mem[Idx(n, |stream|) := pit];
      hwWrIdx := NextIdx(n, hwWrIdx);
      hwFree := hwFree - 1;
      stream := stream + [pit];
      assert stream[..consumed] == old(stream)[..consumed];
    }

    /** The hardware writes entries while it has released space. */
    method HwProduce(writes: seq<Write>)
      requires Valid()
      modifies this`stream, this`hwWrIdx, this`hwFree, pitBase
      ensures Valid() && old(stream) <= stream && |stream| <= |old(stream)| + |writes|
      ensures |stream| < |old(stream)| + |writes| ==> |stream| == released + n - 1
    {
      hide Feed, Idx, Remembers;
      var i := 0;
      while i < |writes| && hwFree > 0
        invariant 0 <= i <= |writes| && Valid() && old(stream) <= stream && |stream| == |old(stream)| + i
        decreases |writes| - i
      {
        HwWrite(writes[i]);
        i := i + 1;
      }
    }

    /** An entry whose content reaches memory after the index moved. */
    method HwComplete(idx: nat, ghost c: nat, pit: Pit)
      requires Valid() && consumed <= c < |stream| && idx == Idx(n, c)
      modifies this`stream, pitBase
      ensures Valid() && stream == old(stream)[c := pit]
    {
      hide Feed, Idx, Remembers;
      RemembersUpdate(n, pitBase[..], stream, c, pit);
      ghost var mem := pitBase[..];
      pitBase[idx] := pit;
      assert pitBase[..] == mem[Idx(n, c) := pit];
      stream := stream[c := pit];
      assert stream[..consumed] == old(stream)[..consumed];
    }

    /** Late contents of entries announced and not consumed, named by their distance
        from the read index. */
    method HwCompletions(completions: seq<(nat, Pit)>)
      requires Valid()
      modifies this`stream, pitBase
      ensures Valid() && |stream| == |old(stream)| && Continues(old(stream), stream, consumed)
      ensures completions == [] ==> stream == old(stream)
    {
      hide Feed, Idx, Remembers;
      var i := 0;
      while i < |completions|
        invariant 0 <= i <= |completions| && Valid() && |stream| == |old(stream)|
        invariant Continues(old(stream), stream, consumed)
        invariant completions == [] ==> stream == old(stream)
      {
        var (off, pit) := completions[i];
        CountOfPositions(n, consumed, |stream|);
        if off < RdWrCount(n, pitRdIdx, hwWrIdx, Read) {
          IdxAdd(n, consumed, off);
          var idx := pitRdIdx + off;
          HwComplete(if idx < n then idx else idx - n, consumed + off, pit);
        }
        i := i + 1;
      }
    }

    /** What the next slot holds before the hardware writes it, judged by its number:
        in the first turn of the ring it is zeroed memory, later the entry of the turn
        before. CheckPitSeq takes it for the entry announced there exactly if 251
        divides the position in the first turn, the ring size afterwards. */
    lemma StaleExact()
      requires Valid()
      ensures var c := |stream|;
              pitBase.Length == n && Idx(n, c) < n
              && (pitBase[Idx(n, c)].SeqNo() == c % PIT_SEQ_VALUE <==>
                  (if c < n then c else n) % PIT_SEQ_VALUE == 0)
    {
      hide Feed;
      var c := |stream|;
      if c >= n {
        RemembersAt(n, pitBase[..], stream, c - n);
        IdxAdd(n, c - n, n);
        NumberRepeats(n, c);
      }
    }

    /** In the driver's ring of 16384 entries no leftover is ever taken for a new entry. */
    lemma StaleRefused()
      requires Valid() && n == PIT_COUNT && |stream| >= n
      ensures pitBase.Length == n && pitBase[Idx(n, |stream|)].SeqNo() != |stream| % PIT_SEQ_VALUE
    {
      StaleExact();
    }

    // ----- one entry -----

    /** t7xx_dpmaif_check_pit_seq: the poll on the entry's sequence number and the
        advance of the expected number. */
    method CheckPitSeq(pit: Pit) returns (ok: bool)
      requires Valid()
      modifies this`expectPitSeq
      ensures ok <==> pit.SeqNo() == consumed % PIT_SEQ_VALUE
      ensures expectPitSeq == if ok then (consumed + 1) % PIT_SEQ_VALUE else old(expectPitSeq)
    {
      if pit.SeqNo() != expectPitSeq {
        return false;
      }
      expectPitSeq := expectPitSeq + 1;
      if expectPitSeq >= PIT_SEQ_VALUE {
        expectPitSeq := 0;
      }
      ok := true;
    }

    /** The body of the loop of t7xx_dpmaif_rx_start between the sequence check and
        the index advance. prev is the error code left by earlier entries. */
    method ProcessPit(pit: Pit, take: Take, prev: int) returns (ret: int, ended: bool)
      requires prev <= 0
      modifies this`rxDataInfo, this`events
      ensures rxDataInfo == StepPit(old(rxDataInfo), pit, take).info
      ensures events == old(events) + StepPit(old(rxDataInfo), pit, take).events
      ensures ended == pit.EndsPacket() && ret <= 0
      ensures pit.IsMsg() ==> ret == prev
      ensures !pit.IsMsg() ==> (ret < 0 <==> PayloadBad(old(rxDataInfo), pit, take))
    {
      ret, ended := prev, false;
      if pit.IsMsg() {
        rxDataInfo := rxDataInfo.(msgReceived := true);
        rxDataInfo := rxDataInfo.(channel := pit.Channel(), checksum := pit.Checksum(),
                                  drop := pit.DropPacket(), pktType := pit.IpType());
        return;
      }
      if !pit.InFragBuffer() {
        ret := SetHead(take);
      } else if rxDataInfo.cur.Nothing? {
        ret := -EINVAL;
      } else {
        match take {
          case Took(page) =>
            rxDataInfo := rxDataInfo.(cur := rxDataInfo.cur.(frags := rxDataInfo.cur.frags + [page]));
            ret := 0;
          case Failed =>
            ret := -EINVAL;
        }
      }
      if ret < 0 {
        rxDataInfo := rxDataInfo.(err := true);
      }
      if !pit.More() {
        if !rxDataInfo.err {
          RxSkb();
        } else if rxDataInfo.cur.Skb? {
          events := events + [Freed(rxDataInfo.cur.head)];
          rxDataInfo := rxDataInfo.(cur := Nothing);
        }
        rxDataInfo := ZeroInfo;
        ended := true;
      }
    }

    /** t7xx_dpmaif_get_rx_pkt as far as the reassembler is concerned. */
    method SetHead(take: Take) returns (ret: int)
      modifies this`rxDataInfo, this`events
      ensures take.Failed? ==> ret == -EINVAL && rxDataInfo == old(rxDataInfo) && events == old(events)
      ensures take.Took? ==> ret == 0 && rxDataInfo == old(rxDataInfo).(cur := Skb(take.buf, []))
      ensures take.Took? ==> events == old(events) + if old(rxDataInfo).cur.Skb? then [Leaked(old(rxDataInfo).cur.head)] else []
    {
      match take {
        case Failed =>
          ret := -EINVAL;
        case Took(buf) =>
          if rxDataInfo.cur.Skb? {
            events := events + [Leaked(rxDataInfo.cur.head)];
          }
          rxDataInfo := rxDataInfo.(cur := Skb(buf, []));
          ret := 0;
      }
    }

    /** t7xx_dpmaif_rx_skb */
    method RxSkb()
      requires rxDataInfo.cur.Skb? && !rxDataInfo.err
      modifies this`rxDataInfo, this`events
      ensures rxDataInfo == old(rxDataInfo).(cur := Nothing)
      ensures events == old(events) + Finish(old(rxDataInfo))
    {
      var cur := rxDataInfo.cur;
      rxDataInfo := rxDataInfo.(cur := Nothing);
      if rxDataInfo.drop {
        events := events + [Freed(cur.head)];
        return;
      }
      events := events + [Delivered(Packet(cur.head, cur.frags, rxDataInfo.checksum == 0,
                                           rxDataInfo.channel % 32, rxDataInfo.pktType))];
    }

    // ----- giving entries back -----

    /** t7xx_dpmaifq_release_pit_entry of everything consumed. A stopped queue reports
        success without giving anything back. */
    method ReleasePitEntry(relEntryNum: nat, doorbellOk: bool) returns (ret: int)
      requires Valid() && relEntryNum == consumed - released
      modifies this`pitReleaseRdIdx, this`hwFree
      ensures hwFree == old(hwFree) + if queStarted && doorbellOk then relEntryNum else 0
      ensures ret == if !queStarted || doorbellOk then 0 else -EFAULT
      ensures pitReleaseRdIdx == if queStarted && doorbellOk then Idx(n, consumed) else old(pitReleaseRdIdx)
    {
      hide Feed, Idx, Remembers;
      if !queStarted {
        return 0;
      }
      if relEntryNum >= n {
        return -EINVAL;
      }
      var oldRel := pitReleaseRdIdx;
      var newRel := oldRel + relEntryNum;
      var hwWr := pitWrIdx;
      ReleaseWraps(n, released, consumed, polled);
      if hwWr < oldRel && newRel >= n {
        newRel := newRel - n;
      }
      if !doorbellOk {
        return -EFAULT;
      }
      hwFree := hwFree + relEntryNum;
      pitReleaseRdIdx := newRel;
      ret := 0;
    }

    /** t7xx_dpmaif_pit_release_and_add. The remaining count stays the number of
        entries consumed and not given back exactly when the queue was running or
        there was nothing to do. */
    method PitReleaseAndAdd(doorbellOk: bool) returns (ret: int)
      requires Valid()
      modifies this`pitReleaseRdIdx, this`pitRemainReleaseCnt, this`released, this`hwFree
      ensures Valid() <==> queStarted || old(consumed - released) < PIT_CNT_THRESHOLD
      ensures ret <= 0 && (ret < 0 <==> queStarted && old(consumed - released) >= PIT_CNT_THRESHOLD && !doorbellOk)
      ensures released == if queStarted && old(consumed - released) >= PIT_CNT_THRESHOLD && doorbellOk
                          then consumed else old(released)
      ensures ret == 0 ==> pitRemainReleaseCnt < PIT_CNT_THRESHOLD
    {
      hide Feed, Idx, Remembers;
      if pitRemainReleaseCnt < PIT_CNT_THRESHOLD {
        return 0;
      }
      ret := ReleasePitEntry(pitRemainReleaseCnt, doorbellOk);
      if ret != 0 {
        return;
      }
      pitRemainReleaseCnt := 0;
      if queStarted {
        released := consumed;
      }
    }

    // ----- a batch -----

    /** One turn of the loop, up to the release notification. */
    method ConsumeOne(curPit: nat, take: Take, prev: int) returns (ok: bool, nextPit: nat, ret: int, ended: bool)
      requires Valid() && consumed < polled && curPit == pitRdIdx && prev <= 0
      modifies this`pitRdIdx, this`expectPitSeq, this`pitRemainReleaseCnt,
               this`rxDataInfo, this`takes, this`consumed, this`events
      ensures Valid()
      ensures ok <==> stream[old(consumed)].SeqNo() == old(consumed) % PIT_SEQ_VALUE
      ensures !ok ==> consumed == old(consumed) && takes == old(takes) && rxDataInfo == old(rxDataInfo) && !ended
      ensures ok ==> consumed == old(consumed) + 1 && takes == old(takes) + [take]
      ensures ok ==> rxDataInfo == StepPit(old(rxDataInfo), stream[old(consumed)], take).info
      ensures ok ==> ended == stream[old(consumed)].EndsPacket()
      ensures nextPit == pitRdIdx && ret <= 0
      ensures !ok ==> ret == prev
      ensures ok && stream[old(consumed)].IsMsg() ==>
                && ret == prev
                && LastPayloadBad(stream[..consumed], takes) == LastPayloadBad(stream[..old(consumed)], old(takes))
      ensures ok && !stream[old(consumed)].IsMsg() ==> (ret < 0 <==> LastPayloadBad(stream[..consumed], takes))
    {
      hide Feed, StepPit, Idx, Remembers, LastPayloadBad, PayloadBad;
      hide Pit.SeqNo, Pit.IsMsg, Pit.EndsPacket;
      RemembersAt(n, pitBase[..], stream, consumed);
      var pit := pitBase[curPit];
      nextPit, ret, ended := curPit, prev, false;
      ok := CheckPitSeq(pit);
      if ok {
        ret, ended := ProcessPit(pit, take, prev);
        FeedAt(stream, takes, consumed, take);
        NextIdxOfPosition(n, consumed);
        nextPit := NextIdx(n, curPit);
        pitRdIdx := nextPit;
        pitRemainReleaseCnt := pitRemainReleaseCnt + 1;
        takes := takes + [take];
        consumed := consumed + 1;
      }
    }

    /** One turn of the loop, with the release notification that every 128th brings. */
    method Turn(curPit: nat, rxCnt: nat, take: Take, prev: int, doorbellOk: bool, ghost from: nat)
        returns (ok: bool, nextPit: nat, ret: int, ended: bool, notified: bool)
      requires Valid() && queStarted && consumed < polled && curPit == pitRdIdx && prev <= 0
      requires from <= consumed && (prev < 0 <==> BadSince(from))
      modifies this`pitRdIdx, this`pitReleaseRdIdx, this`expectPitSeq, this`pitRemainReleaseCnt,
               this`rxDataInfo, this`takes, this`consumed, this`released, this`events, this`hwFree
      ensures Valid() && ret <= 0 && nextPit == pitRdIdx && released <= consumed <= |stream|
      ensures ok <==> stream[old(consumed)].SeqNo() == old(consumed) % PIT_SEQ_VALUE
      ensures notified <==> ok && rxCnt > 0 && rxCnt % NOTIFY_RELEASE_COUNT == 0
      ensures !ok ==> consumed == old(consumed) && takes == old(takes) && rxDataInfo == old(rxDataInfo) && !ended
      ensures ok ==> consumed == old(consumed) + 1 && takes == old(takes) + [take]
      ensures ok ==> rxDataInfo == StepPit(old(rxDataInfo), stream[old(consumed)], take).info
      ensures ok ==> ended == stream[old(consumed)].EndsPacket()
      ensures !notified ==> released == old(released) && (ret < 0 <==> BadSince(from))
      ensures notified ==> (ret < 0 <==> consumed - released >= PIT_CNT_THRESHOLD)
    {
      hide Feed, StepPit, Idx, Remembers, LastPayloadBad, LastPayload, Numbered, Pit.SeqNo, Pit.EndsPacket, Pit.IsMsg;
      notified := false;
      LastPayloadNext(stream, consumed);
      ok, nextPit, ret, ended := ConsumeOne(curPit, take, prev);
      if ok && rxCnt > 0 && rxCnt % NOTIFY_RELEASE_COUNT == 0 {
        notified := true;
        ret := PitReleaseAndAdd(doorbellOk);
      }
    }

    /** The loop of t7xx_dpmaif_rx_start. */
    method RxLoop(pitCnt: nat, budget: nat, outcomes: seq<Take>, doorbells: seq<bool>)
        returns (recvSkbCnt: nat, ret: int, bell: nat, onceMore: bool, ghost k: nat)
      requires Valid() && queStarted && pitCnt <= polled - consumed
      modifies this`pitRdIdx, this`pitReleaseRdIdx, this`expectPitSeq, this`pitRemainReleaseCnt,
               this`rxDataInfo, this`takes, this`consumed, this`released, this`events, this`hwFree
      ensures Valid() && k <= pitCnt && ret <= 0
      ensures consumed == old(consumed) + k && takes == old(takes) + FirstTakes(outcomes, k)
      ensures Numbered(stream, old(consumed), consumed)
      ensures recvSkbCnt == Ends(stream[old(consumed)..consumed])
      ensures onceMore ==> k < pitCnt && Mismatched()
      ensures !onceMore ==> (BadSince(old(consumed) + Renewed(k)) ==> ret < 0)
      ensures !onceMore && ret < 0 ==> BadSince(old(consumed) + Renewed(k)) || consumed - released >= PIT_CNT_THRESHOLD
      ensures (onceMore || ret == 0) && k > NOTIFY_RELEASE_COUNT ==>
                consumed - released < PIT_CNT_THRESHOLD + (k - Renewed(k))
      ensures budget > 0 || !old(rxDataInfo).msgReceived ==> recvSkbCnt <= budget
      ensures k < pitCnt && !onceMore ==> ret < 0 || (!rxDataInfo.msgReceived && recvSkbCnt >= budget)
    {
      hide Feed, StepPit, Idx, Remembers, Ends, Valid, FirstTakes, TakeAt, Answer, Numbered;
      hide LastPayloadBad, Renewed, BadSince, LastPayload;
      hide Pit.SeqNo, Pit.EndsPacket, Pit.IsMsg;
      EndsNone();
      FirstTakesSnoc(outcomes, 0);
      Bounds();
      ghost var c0 := consumed;
      ghost var msg0 := rxDataInfo.msgReceived;
      assert stream[c0..consumed] == [];
      NumberedNone(stream, c0);
      k := 0;
      RenewedStep(0);
      NotBadSinceNow();
      recvSkbCnt, ret, bell, onceMore := 0, 0, 0, false;
      var curPit := pitRdIdx;
      var rxCnt := 0;
      while rxCnt < pitCnt
        invariant 0 <= rxCnt <= pitCnt && k == rxCnt
        invariant Valid() && c0 + k == consumed <= c0 + pitCnt <= polled <= |stream|
        invariant curPit == pitRdIdx
        invariant takes == old(takes) + FirstTakes(outcomes, k)
        invariant Numbered(stream, c0, consumed)
        invariant recvSkbCnt == Ends(stream[c0..consumed])
        invariant budget > 0 || !msg0 ==>
                    recvSkbCnt < budget || (recvSkbCnt == budget && !rxDataInfo.msgReceived)
        invariant ret <= 0 && (ret < 0 <==> BadSince(c0 + Renewed(k))) && Renewed(k) <= k
        invariant Renewed(k) > 0 ==> consumed - released < PIT_CNT_THRESHOLD + (k - Renewed(k))
        invariant k > NOTIFY_RELEASE_COUNT ==> Renewed(k) > 0
        decreases pitCnt - rxCnt
      {
        if !rxDataInfo.msgReceived && recvSkbCnt >= budget {
          break;
        }
        var seqOk, ended, notified;
        EndsAt(stream, c0, consumed);
        NumberedMore(stream, c0, consumed);
        StepEnds(rxDataInfo, stream[consumed], TakeAt(outcomes, rxCnt));
        seqOk, curPit, ret, ended, notified :=
          Turn(curPit, rxCnt, TakeAt(outcomes, rxCnt), ret, Answer(doorbells, bell), c0 + Renewed(k));
        if !seqOk {
          onceMore := true;
          break;
        }
        if ended {
          recvSkbCnt := recvSkbCnt + 1;
        }
        FirstTakesSnoc(outcomes, k);
        RenewedStep(k);
        k := k + 1;
        if notified {
          NotBadSinceNow();
          bell := bell + 1;
          if ret < 0 {
            break;
          }
        }
        rxCnt := rxCnt + 1;
      }
      Bounds();
    }

    /** t7xx_dpmaif_rx_start. However the batch is cut short, Valid keeps saying that
        everything that came out is what one pass over the consumed entries gives. */
    method RxStart(pitCnt: nat, budget: nat, outcomes: seq<Take>, doorbells: seq<bool>)
        returns (ret: int, onceMore: bool, ghost k: nat)
      requires Valid() && queStarted && pitCnt <= polled - consumed
      modifies this`pitRdIdx, this`pitReleaseRdIdx, this`expectPitSeq, this`pitRemainReleaseCnt,
               this`rxDataInfo, this`takes, this`consumed, this`released, this`events, this`hwFree
      ensures Valid() && k <= pitCnt
      ensures consumed == old(consumed) + k && takes == old(takes) + FirstTakes(outcomes, k)
      // exactly the entries with the expected number were consumed
      ensures Numbered(stream, old(consumed), consumed)
      ensures onceMore ==> k < pitCnt && Mismatched()
      // the error: the last payload since the last release notification failed, or
      // entries could not be given back
      ensures ret < 0 ==> Faulty()
      ensures !onceMore ==>
                (ret < 0 <==> BadSince(old(consumed) + Renewed(k)) || consumed - released >= PIT_CNT_THRESHOLD)
      // entries are given back while a long batch runs
      ensures ret >= 0 && k > NOTIFY_RELEASE_COUNT ==>
                consumed - released < PIT_CNT_THRESHOLD + NOTIFY_RELEASE_COUNT
      // the budget
      ensures budget > 0 || !old(rxDataInfo).msgReceived ==> Ends(stream[old(consumed)..consumed]) <= budget
      ensures ret >= 0 ==> ret == Ends(stream[old(consumed)..consumed])
      // nothing is left over without a reason
      ensures k < pitCnt && !onceMore ==>
                ret < 0 || (!rxDataInfo.msgReceived && Ends(stream[old(consumed)..consumed]) >= budget)
      ensures onceMore ==> ret >= 0
      ensures ret >= 0 && !onceMore ==> consumed - released < PIT_CNT_THRESHOLD
    {
      hide Feed, StepPit, Idx, Remembers, Ends, Valid, FirstTakes, TakeAt, Answer, LastPayloadBad, Renewed, LastPayload;
      var recvSkbCnt, bell;
      recvSkbCnt, ret, bell, onceMore, k := RxLoop(pitCnt, budget, outcomes, doorbells);
      RenewedStep(k);
      Bounds();
      if onceMore {
        return recvSkbCnt, true, k;
      }
      if ret == 0 {
        ret := PitReleaseAndAdd(Answer(doorbells, bell));
      }
      if ret != 0 {
        return;
      }
      ret := recvSkbCnt;
    }

    // ----- the poll -----

    /** t7xx_dpmaifq_poll_pit */
    method PollPit() returns (pitCnt: nat)
      requires Valid()
      modifies this`pitWrIdx, this`polled
      ensures Valid()
      ensures pitCnt == if queStarted then |stream| - consumed else 0
      ensures polled == if queStarted then |stream| else old(polled)
    {
      hide Feed, Idx, Remembers;
      if !queStarted {
        return 0;
      }
      CountOfPositions(n, consumed, |stream|);
      pitCnt := RdWrCount(n, pitRdIdx, hwWrIdx, Read);
      pitWrIdx := hwWrIdx;
      polled := |stream|;
    }

    /** t7xx_dpmaif_napi_rx_data_collect, after what the hardware did meanwhile. */
    method RxDataCollect(budget: nat, round: Round) returns (ret: int, onceMore: bool)
      requires Valid() && queStarted && budget > 0
      modifies this`pitRdIdx, this`pitWrIdx, this`pitReleaseRdIdx, this`expectPitSeq, this`pitRemainReleaseCnt,
               this`rxDataInfo, this`takes, this`consumed, this`released, this`events, this`hwFree,
               this`stream, this`hwWrIdx, this`polled, pitBase
      ensures Valid() && old(consumed) <= consumed <= |stream| && old(takes) <= takes
      ensures Continues(old(stream), stream, old(consumed))
      ensures round.completions == [] ==> old(stream) <= stream
      ensures Numbered(stream, old(consumed), consumed)
      ensures Ends(stream[old(consumed)..consumed]) <= budget
      ensures ret >= 0 ==> ret == Ends(stream[old(consumed)..consumed])
      ensures ret < 0 ==> Faulty()
      ensures onceMore ==> Mismatched()
      ensures ret == 0 && !onceMore ==> consumed == |stream|
    {
      hide Feed, StepPit, Idx, Remembers, Ends, Valid, FirstTakes, LastPayloadBad;
      HwCompletions(round.completions);
      HwProduce(round.arrivals);
      var cnt := PollPit();
      Bounds();
      ret, onceMore := 0, false;
      if cnt == 0 {
        assert stream[consumed..consumed] == [];
        EndsNone();
        return;
      }
      ghost var k;
      ret, onceMore, k := RxStart(cnt, budget, round.takes, round.doorbells);
    }

    /** t7xx_dpmaif_napi_rx_poll: never more than the budget, whatever goes wrong. */
    method NapiRxPoll(budget: nat, lockAcquired: bool, rounds: seq<Round>) returns (workDone: nat)
      requires Valid()
      modifies this`pitRdIdx, this`pitWrIdx, this`pitReleaseRdIdx, this`expectPitSeq, this`pitRemainReleaseCnt,
               this`rxDataInfo, this`takes, this`consumed, this`released, this`events, this`hwFree,
               this`stream, this`hwWrIdx, this`polled, this`sleepLockPending, pitBase
      ensures Valid() && old(consumed) <= consumed <= |stream| && old(takes) <= takes
      ensures Continues(old(stream), stream, old(consumed))
      ensures workDone <= budget
      ensures Ends(stream[old(consumed)..consumed]) <= budget
      ensures DeliveredCount(events) <= DeliveredCount(old(events)) + budget
      ensures Numbered(stream, old(consumed), consumed)
      ensures !queStarted || !lockAcquired ==> consumed == old(consumed) && workDone == 0
      // the packet ends it saw are counted, all of them unless an error stands
      ensures workDone < budget ==> workDone <= Ends(stream[old(consumed)..consumed])
      ensures workDone < budget && !Faulty() ==> workDone == Ends(stream[old(consumed)..consumed])
      // it stops early only when the ring is drained or something went wrong, and
      // reports a full budget only when it used it or must be polled again
      ensures queStarted && lockAcquired && workDone < budget ==> consumed == |stream| || Faulty()
      ensures queStarted && lockAcquired && workDone == budget && NoCompletions(rounds) ==>
                Ends(stream[old(consumed)..consumed]) == budget || Mismatched()
      ensures queStarted ==> sleepLockPending == !lockAcquired
    {
      hide Feed, StepPit, Idx, Remembers, Ends;
      assert stream[consumed..consumed] == [];
      EndsNone();
      workDone := 0;
      if !queStarted {
        return;
      }
      sleepLockPending := !lockAcquired;
      if !lockAcquired {
        return;
      }
      assert Valid();
      Bounds();
      assert Numbered(stream, consumed, consumed);
      hide Valid, Numbered, Faulty;
      ghost var c0, handled := consumed, 0;
      var i, once := 0, false;
      while workDone < budget
        invariant Valid() && c0 <= consumed <= |stream| && old(takes) <= takes
        invariant Continues(old(stream), stream, c0)
        invariant handled == workDone <= budget && !sleepLockPending
        invariant handled == Ends(stream[c0..consumed])
        invariant Numbered(stream, c0, consumed)
        invariant once && NoCompletions(rounds) ==> Mismatched()
        decreases budget - workDone
      {
        ghost var c1 := consumed;
        ghost var stream1 := stream;
        var rxCnt, more := RxDataCollect(budget - workDone, RoundAt(rounds, i));
        Bounds();
        SplitPass(stream1, stream, c0, c1, consumed);
        handled := handled + Ends(stream[c1..consumed]);
        once := once || more;
        i := i + 1;
        if rxCnt > 0 {
          workDone := workDone + rxCnt;
        } else {
          break;
        }
      }
      assert handled <= budget;
      PassDelivers(old(stream), old(takes), stream, takes, c0, consumed, old(rxDataInfo), old(events), rxDataInfo, events);
      if once {
        workDone := budget;
      }
    }
  }

  /** The result does not depend on how the work was split into calls, on budgets,
      wrong numbers, retries and failed doorbells: a queue that has consumed the same
      entries with the same outcomes has delivered the same packets and holds the same
      rx_data_info, and one that is ahead has delivered an extension. */
  lemma BatchingIndependent(a: RxQueue, b: RxQueue)
    requires a.Valid() && b.Valid() && a.consumed <= b.consumed
    requires a.stream[..a.consumed] == b.stream[..a.consumed] && a.takes == b.takes[..a.consumed]
    ensures a.events <= b.events
    ensures a.consumed == b.consumed ==>
              a.events == b.events && a.rxDataInfo == b.rxDataInfo && a.expectPitSeq == b.expectPitSeq
  {
    hide Feed, Idx, Remembers, Numbered;
    var k := a.consumed;
    assert b.takes[..b.consumed] == b.takes;
    var p, t := b.stream[k..b.consumed], b.takes[k..];
    FeedSplit(ZeroInfo, a.stream[..k], a.takes, p, t);
    assert a.stream[..k] + p == b.stream[..b.consumed] && a.takes + t == b.takes;
  }

  lemma SplitPass(s0: seq<Pit>, s1: seq<Pit>, c0: nat, c1: nat, c2: nat)
    requires Continues(s0, s1, c1) && c0 <= c1 <= c2 <= |s1|
    ensures Ends(s1[c0..c2]) == Ends(s0[c0..c1]) + Ends(s1[c1..c2])
    ensures Numbered(s0, c0, c1) && Numbered(s1, c1, c2) ==> Numbered(s1, c0, c2)
  {
    assert forall c :: 0 <= c < c1 ==> s0[..c1][c] == s0[c] && s1[..c1][c] == s1[c];
    assert s1[c0..c2] == s0[c0..c1] + s1[c1..c2];
    EndsSplit(s0[c0..c1], s1[c1..c2]);
  }

  lemma PassDelivers(s0: seq<Pit>, t0: seq<Take>, s1: seq<Pit>, t1: seq<Take>, c0: nat, c1: nat,
                     info0: Info, events0: seq<Event>, info1: Info, events1: seq<Event>)
    requires Continues(s0, s1, c0) && t0 <= t1 && c0 <= c1 && |t0| == c0 && |t1| == c1 <= |s1|
    requires Feed(ZeroInfo, s0[..c0], t0) == Result(info0, events0)
    requires Feed(ZeroInfo, s1[..c1], t1) == Result(info1, events1)
    ensures DeliveredCount(events1) <= DeliveredCount(events0) + Ends(s1[c0..c1])
  {
    hide Feed, Ends, DeliveredCount;
    var p, t := s1[c0..c1], t1[c0..];
    FeedSplit(ZeroInfo, s0[..c0], t0, p, t);
    assert s0[..c0] + p == s1[..c1] && t0 + t == t1;
    DeliveredAtMostEnds(info0, p, t);
    DeliveredSplit(events0, Feed(info0, p, t).events);
  }

  /** The release index wraps exactly when the code's two comparisons say so. */
  lemma ReleaseWraps(n: RingSize, released: nat, consumed: nat, polled: nat)
    requires released <= consumed <= polled < released + n
    ensures var rel := Idx(n, released) + (consumed - released);
            Idx(n, consumed) == if Idx(n, polled) < Idx(n, released) && rel >= n then rel - n else rel
  {
    IdxAdd(n, released, consumed - released);
    IdxAdd(n, released, polled - released);
  }

  lemma FirstTakesSnoc(takes: seq<Take>, k: nat)
    ensures FirstTakes(takes, 0) == []
    ensures FirstTakes(takes, k + 1) == FirstTakes(takes, k) + [TakeAt(takes, k)]
  {
  }

  lemma NumberedNone(stream: seq<Pit>, c: nat)
    requires c <= |stream|
    ensures Numbered(stream, c, c)
  {
  }

  lemma NumberedMore(stream: seq<Pit>, from: nat, c: nat)
    requires from <= c < |stream| && Numbered(stream, from, c)
    ensures stream[c].SeqNo() == c % PIT_SEQ_VALUE ==> Numbered(stream, from, c + 1)
  {
  }

  lemma EndsNone()
    ensures Ends([]) == 0
  {
  }

  /** An entry that ends a packet leaves the reassembler as it was at the start. */
  lemma StepEnds(info: Info, pit: Pit, take: Take)
    ensures pit.EndsPacket() ==> StepPit(info, pit, take).info == ZeroInfo
  {
  }

  lemma EndsAt(stream: seq<Pit>, from: nat, c: nat)
    requires from <= c < |stream|
    ensures Ends(stream[from..c + 1]) == Ends(stream[from..c]) + if stream[c].EndsPacket() then 1 else 0
  {
    assert stream[from..c + 1][..c - from] == stream[from..c];
  }
}
