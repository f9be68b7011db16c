/** Completion entries (PITs) and the packet reassembler of the receive path
    (src/t7xx_hif_dpmaif_rx.c:611-621, 694-777; field layout in
    src/t7xx_hif_dpmaif_rx.h). Bit fields are div and mod on naturals. */
module Reassembly {

  const PIT_SEQ_VALUE := 251

  /** The two words of an entry that the driver interprets. */
  datatype Pit = Pit(header: nat, footer: nat)
  {
    function SeqNo(): nat { footer % 0x100 }
    predicate IsMsg() { header % 2 == 1 }
    // payload entries
    predicate More() { (header / 2) % 2 == 1 }
    predicate InFragBuffer() { (header / 4) % 2 == 1 }
    function BufferId(): nat { (footer / 0x100) % 8 * 0x2000 + (header / 8) % 0x2000 }
    // message entries
    function Checksum(): nat { (header / 4) % 4 }
    function Channel(): nat { (header / 0x1_0000) % 0x100 }
    predicate DropPacket() { (header / 0x8000_0000) % 2 == 1 }
    function IpType(): nat { (footer / 0x80_0000) % 2 }

    predicate IsHead() { !IsMsg() && !InFragBuffer() }
    predicate EndsPacket() { !IsMsg() && !More() }
  }

  /** What taking the entry's buffer gave. */
  datatype Take = Took(buf: nat) | Failed

  datatype Building = Nothing | Skb(head: nat, frags: seq<nat>)

  /** struct dpmaif_cur_rx_skb_info */
  datatype Info = Info(
    msgReceived: bool,
    cur: Building,
    channel: nat,
    checksum: nat,
    drop: bool,
    pktType: nat,
    err: bool)

  const ZeroInfo := Info(false, Nothing, 0, 0, false, 0, false)

  datatype Packet = Packet(head: nat, frags: seq<nat>, checksumOk: bool, netif: nat, pktType: nat)

  /** Where a head buffer ends up. */
  datatype Event =
    | Delivered(packet: Packet)
    | Freed(skb: nat)
    | Leaked(skb: nat)   // overwritten while still being built

  // ----- one entry -----

  function ParseMsg(info: Info, pit: Pit): Info {
    info.(msgReceived := true, channel := pit.Channel(), checksum := pit.Checksum(),
          drop := pit.DropPacket(), pktType := pit.IpType())
  }

  function AddPayload(info: Info, pit: Pit, take: Take): Info {
    if !pit.InFragBuffer() then
      match take
      case Took(b) => info.(cur := Skb(b, []))
      case Failed => info.(err := true)
    else if info.cur.Nothing? || take.Failed? then info.(err := true)
    else info.(cur := info.cur.(frags := info.cur.frags + [take.buf]))
  }

  function Overwritten(info: Info, pit: Pit, take: Take): seq<Event> {
    if pit.IsHead() && take.Took? && info.cur.Skb? then [Leaked(info.cur.head)] else []
  }

  /** t7xx_dpmaif_rx_skb, or the free of the error branch. */
  function Finish(info: Info): seq<Event> {
    if info.cur.Nothing? then []
    else if info.err || info.drop then [Freed(info.cur.head)]
    else [Delivered(Packet(info.cur.head, info.cur.frags, info.checksum == 0, info.channel % 32, info.pktType))]
  }

  datatype Result = Result(info: Info, events: seq<Event>)

  function StepPit(info: Info, pit: Pit, take: Take): Result {
    if pit.IsMsg() then Result(ParseMsg(info, pit), [])
    else
      var next := AddPayload(info, pit, take);
      var lost := Overwritten(info, pit, take);
      if pit.More() then Result(next, lost)
      else Result(ZeroInfo, lost + Finish(next))
  }

  /** The entry's payload could not be added. */
  predicate PayloadBad(info: Info, pit: Pit, take: Take) {
    take.Failed? || (pit.InFragBuffer() && info.cur.Nothing?)
  }

  /** A packet that ends without an error has a buffer: the stack never gets NULL. */
  lemma NeverHandsUpNothing(info: Info, pit: Pit, take: Take)
    ensures var next := AddPayload(info, pit, take); next.err || next.cur.Skb?
  {
  }

  // ----- an entry stream -----

  /** One uninterrupted pass over a stream of entries. */
  function Feed(info: Info, pits: seq<Pit>, takes: seq<Take>): Result
    requires |pits| == |takes|
  {
    if pits == [] then Result(info, [])
    else
      var k := |pits| - 1;
      var before := Feed(info, pits[..k], takes[..k]);
      var last := StepPit(before.info, pits[k], takes[k]);
      Result(last.info, before.events + last.events)
  }

  lemma FeedSnoc(info: Info, pits: seq<Pit>, takes: seq<Take>, pit: Pit, take: Take)
    requires |pits| == |takes|
    ensures var before := Feed(info, pits, takes);
            var last := StepPit(before.info, pit, take);
            Feed(info, pits + [pit], takes + [take]) == Result(last.info, before.events + last.events)
  {
    assert (pits + [pit])[..|pits|] == pits && (takes + [take])[..|pits|] == takes;
  }

  /** The last payload entry of a stream could not be added. */
  predicate LastPayloadBad(pits: seq<Pit>, takes: seq<Take>)
    requires |pits| == |takes|
  {
    if pits == [] then false
    else
      var k := |pits| - 1;
      if pits[k].IsMsg() then LastPayloadBad(pits[..k], takes[..k])
      else PayloadBad(Feed(ZeroInfo, pits[..k], takes[..k]).info, pits[k], takes[k])
  }

  lemma LastBadSnoc(pits: seq<Pit>, takes: seq<Take>, pit: Pit, take: Take)
    requires |pits| == |takes|
    ensures LastPayloadBad(pits + [pit], takes + [take]) ==
            if pit.IsMsg() then LastPayloadBad(pits, takes)
            else PayloadBad(Feed(ZeroInfo, pits, takes).info, pit, take)
  {
    assert (pits + [pit])[..|pits|] == pits && (takes + [take])[..|pits|] == takes;
  }

  /** The same for a stream that continues: what entry c adds. */
  lemma FeedAt(stream: seq<Pit>, takes: seq<Take>, c: nat, take: Take)
    requires |takes| == c < |stream|
    ensures var before := Feed(ZeroInfo, stream[..c], takes);
            var last := StepPit(before.info, stream[c], take);
            Feed(ZeroInfo, stream[..c + 1], takes + [take]) == Result(last.info, before.events + last.events)
    ensures LastPayloadBad(stream[..c + 1], takes + [take]) ==
            if stream[c].IsMsg() then LastPayloadBad(stream[..c], takes)
            else PayloadBad(Feed(ZeroInfo, stream[..c], takes).info, stream[c], take)
  {
    hide Feed, LastPayloadBad;
    assert stream[..c + 1] == stream[..c] + [stream[c]];
    FeedSnoc(ZeroInfo, stream[..c], takes, stream[c], take);
    LastBadSnoc(stream[..c], takes, stream[c], take);
  }

  /** Cutting the stream anywhere changes nothing: the second part starts from
      the state the first part left, and the events are the concatenation. */
  lemma {:induction false} FeedSplit(info: Info, p: seq<Pit>, t: seq<Take>, q: seq<Pit>, u: seq<Take>)
    requires |p| == |t| && |q| == |u|
    ensures var first := Feed(info, p, t);
            var second := Feed(first.info, q, u);
            Feed(info, p + q, t + u) == Result(second.info, first.events + second.events)
  {
    hide StepPit;
    if q == [] {
      assert p + q == p && t + u == t;
    } else {
      var k := |q| - 1;
      FeedSplit(info, p, t, q[..k], u[..k]);
      assert (p + q)[..|p| + k] == p + q[..k];
      assert (t + u)[..|p| + k] == t + u[..k];
    }
  }

  /** Entries that end a packet, as the driver's recv_skb_cnt counts them. */
  function Ends(pits: seq<Pit>): nat {
    if pits == [] then 0
    else Ends(pits[..|pits| - 1]) + if pits[|pits| - 1].EndsPacket() then 1 else 0
  }

  lemma {:induction false} EndsSplit(p: seq<Pit>, q: seq<Pit>)
    ensures Ends(p + q) == Ends(p) + Ends(q)
  {
    if q == [] {
      assert p + q == p;
    } else {
      EndsSplit(p, q[..|q| - 1]);
      assert (p + q)[..|p + q| - 1] == p + q[..|q| - 1];
    }
  }

  function DeliveredCount(events: seq<Event>): nat {
    if events == [] then 0
    else DeliveredCount(events[..|events| - 1]) + if events[|events| - 1].Delivered? then 1 else 0
  }

  lemma {:induction false} DeliveredSplit(a: seq<Event>, b: seq<Event>)
    ensures DeliveredCount(a + b) == DeliveredCount(a) + DeliveredCount(b)
  {
    if b == [] {
      assert a + b == a;
    } else {
      DeliveredSplit(a, b[..|b| - 1]);
      assert (a + b)[..|a + b| - 1] == a + b[..|b| - 1];
    }
  }

  /** No more packets are delivered than packet ends were seen. */
  lemma {:induction false} DeliveredAtMostEnds(info: Info, pits: seq<Pit>, takes: seq<Take>)
    requires |pits| == |takes|
    ensures DeliveredCount(Feed(info, pits, takes).events) <= Ends(pits)
  {
    if pits != [] {
      var k := |pits| - 1;
      DeliveredAtMostEnds(info, pits[..k], takes[..k]);
      var before := Feed(info, pits[..k], takes[..k]);
      var last := StepPit(before.info, pits[k], takes[k]);
      DeliveredSplit(before.events, last.events);
      StepDelivers(before.info, pits[k], takes[k]);
    }
  }

  lemma StepDelivers(info: Info, pit: Pit, take: Take)
    ensures DeliveredCount(StepPit(info, pit, take).events) <= if pit.EndsPacket() then 1 else 0
  {
    var next := AddPayload(info, pit, take);
    DeliveredSplit(Overwritten(info, pit, take), Finish(next));
    assert DeliveredCount(Overwritten(info, pit, take)) == 0;
  }

  // ----- conservation of head buffers -----

  /** The head buffers whose fate the events settle. */
  function Settled(events: seq<Event>): multiset<nat> {
    multiset(Heads(events))
  }

  function Heads(events: seq<Event>): (r: seq<nat>)
    ensures |r| == |events|
  {
    seq(|events|, i requires 0 <= i < |events| => HeadOf(events[i]))
  }

  function HeadOf(e: Event): nat {
    match e
    case Delivered(p) => p.head
    case Freed(b) => b
    case Leaked(b) => b
  }

  function Held(info: Info): multiset<nat> {
    if info.cur.Skb? then multiset{info.cur.head} else multiset{}
  }

  function HeadsTaken(pits: seq<Pit>, takes: seq<Take>): multiset<nat>
    requires |pits| == |takes|
  {
    if pits == [] then multiset{}
    else
      var k := |pits| - 1;
      HeadsTaken(pits[..k], takes[..k]) + HeadTaken(pits[k], takes[k])
  }

  function HeadTaken(pit: Pit, take: Take): multiset<nat> {
    if pit.IsHead() && take.Took? then multiset{take.buf} else multiset{}
  }

  lemma ChainSums(a: multiset<nat>, b: multiset<nat>, c: multiset<nat>, d: multiset<nat>,
                  e: multiset<nat>, f: multiset<nat>, g: multiset<nat>)
    requires a + b == c + d && d + e == f + g
    ensures a + (b + e) == (c + f) + g
  {
    assert a + (b + e) == (a + b) + e;
    assert (c + d) + e == c + (d + e);
    assert c + (f + g) == (c + f) + g;
  }

  lemma SettledSplit(a: seq<Event>, b: seq<Event>)
    ensures Settled(a + b) == Settled(a) + Settled(b)
  {
    assert Heads(a + b) == Heads(a) + Heads(b);
  }

  lemma SumCommutes(a: multiset<nat>, b: multiset<nat>)
    ensures a + b == b + a
  {
  }

  lemma SettledOne(e: Event)
    ensures Settled([e]) == multiset{HeadOf(e)} && Settled([]) == multiset{}
  {
    assert Heads([e]) == [HeadOf(e)];
  }

  lemma PayloadConserves(info: Info, pit: Pit, take: Take)
    requires !pit.IsMsg()
    ensures Settled(Overwritten(info, pit, take)) + Held(AddPayload(info, pit, take))
         == Held(info) + HeadTaken(pit, take)
  {
    hide Settled;
    var settled := Settled(Overwritten(info, pit, take));
    SettledOne(Leaked(if info.cur.Skb? then info.cur.head else 0));
    if pit.IsHead() && take.Took? {
      assert settled == Held(info);
      assert Held(AddPayload(info, pit, take)) == HeadTaken(pit, take);
    } else {
      assert settled == multiset{} == HeadTaken(pit, take);
      assert Held(AddPayload(info, pit, take)) == Held(info);
      SumCommutes(settled, Held(info));
    }
    hide AddPayload, Overwritten, Held, HeadTaken;
  }

  lemma FinishSettles(info: Info)
    ensures Settled(Finish(info)) == Held(info) && Held(ZeroInfo) == multiset{}
  {
    if info.cur.Skb? {
      SettledOne(Freed(info.cur.head));
      SettledOne(Delivered(Packet(info.cur.head, info.cur.frags, info.checksum == 0, info.channel % 32, info.pktType)));
    }
    SettledOne(Freed(0));
    hide Settled;
  }

  lemma StepConserves(info: Info, pit: Pit, take: Take)
    ensures var r := StepPit(info, pit, take);
            Held(info) + HeadTaken(pit, take) == Settled(r.events) + Held(r.info)
  {
    if !pit.IsMsg() {
      var next := AddPayload(info, pit, take);
      PayloadConserves(info, pit, take);
      FinishSettles(next);
      SettledSplit(Overwritten(info, pit, take), Finish(next));
      hide AddPayload, Overwritten, Finish, HeadTaken, Settled, Held;
    }
  }

  /** Every buffer a poll takes is delivered, freed, leaked or still being built,
      exactly once. */
  lemma {:induction false} HeadsConserved(info: Info, pits: seq<Pit>, takes: seq<Take>)
    requires |pits| == |takes|
    ensures var r := Feed(info, pits, takes);
            Held(info) + HeadsTaken(pits, takes) == Settled(r.events) + Held(r.info)
  {
    hide StepPit, HeadTaken, Held;
    if pits != [] {
      var k := |pits| - 1;
      HeadsConserved(info, pits[..k], takes[..k]);
      var before := Feed(info, pits[..k], takes[..k]);
      var last := StepPit(before.info, pits[k], takes[k]);
      StepConserves(before.info, pits[k], takes[k]);
      SettledSplit(before.events, last.events);
      ChainSums(Held(info), HeadsTaken(pits[..k], takes[..k]), Settled(before.events), Held(before.info),
                HeadTaken(pits[k], takes[k]), Settled(last.events), Held(last.info));
    }
  }

  /** If no buffer was taken twice (which the BAT ring guarantees), no buffer meets
      two fates: the stack never gets the same buffer again, nor a freed one. */
  lemma FatesDistinct(pits: seq<Pit>, takes: seq<Take>)
    requires |pits| == |takes|
    requires forall b :: HeadsTaken(pits, takes)[b] <= 1
    ensures var events := Feed(ZeroInfo, pits, takes).events;
            forall i, j :: 0 <= i < j < |events| ==> HeadOf(events[i]) != HeadOf(events[j])
  {
    HeadsConserved(ZeroInfo, pits, takes);
    var r := Feed(ZeroInfo, pits, takes);
    var hs := Heads(r.events);
    assert Held(ZeroInfo) == multiset{};
    forall i, j | 0 <= i < j < |r.events| ensures HeadOf(r.events[i]) != HeadOf(r.events[j]) {
      var b := HeadOf(r.events[i]);
      assert (Held(ZeroInfo) + HeadsTaken(pits, takes))[b] == (Settled(r.events) + Held(r.info))[b];
      assert (Settled(r.events) + Held(r.info))[b] == Settled(r.events)[b] + Held(r.info)[b];
      assert hs == hs[..j] + hs[j..];
      assert hs[i] == b && hs[i] in hs[..j] && b in multiset(hs[..j]);
      assert hs[j] == hs[j..][0] && hs[j] in hs[j..] && hs[j] in multiset(hs[j..]);
    }
  }

  /** Between any two head buffers taken, some entry ended a packet. */
  ghost predicate OneHeadPerPacket(pits: seq<Pit>, takes: seq<Take>)
    requires |pits| == |takes|
  {
    forall i, j :: 0 <= i < j < |pits| && TakesHead(pits, takes, i) && TakesHead(pits, takes, j) ==>
      exists k :: i <= k < j && pits[k].EndsPacket()
  }

  predicate TakesHead(pits: seq<Pit>, takes: seq<Take>, i: nat)
    requires |pits| == |takes| && i < |pits|
  {
    pits[i].IsHead() && takes[i].Took?
  }

  ghost predicate OpenHead(pits: seq<Pit>, takes: seq<Take>, i: nat)
    requires |pits| == |takes| && i < |pits|
  {
    TakesHead(pits, takes, i) && forall k :: i <= k < |pits| ==> !pits[k].EndsPacket()
  }

  /** A buffer is being built exactly when a head was taken and its packet has not ended. */
  lemma {:induction false} HeldExact(pits: seq<Pit>, takes: seq<Take>)
    requires |pits| == |takes|
    ensures Feed(ZeroInfo, pits, takes).info.cur.Skb? <==>
            exists i :: 0 <= i < |pits| && OpenHead(pits, takes, i)
  {
    hide Pit.IsMsg, Pit.More, Pit.InFragBuffer, Pit.Channel, Pit.Checksum, Pit.DropPacket, Pit.IpType;
    if pits != [] {
      var k := |pits| - 1;
      var p, t := pits[..k], takes[..k];
      HeldExact(p, t);
      if i :| 0 <= i < k && OpenHead(p, t, i) {
        assert !pits[k].EndsPacket() ==> OpenHead(pits, takes, i);
      }
      if i :| 0 <= i < |pits| && OpenHead(pits, takes, i) {
        assert i < k ==> OpenHead(p, t, i);
        assert !pits[k].EndsPacket();
      }
      if TakesHead(pits, takes, k) && !pits[k].EndsPacket() {
        assert OpenHead(pits, takes, k);
      }
    }
  }

  predicate NoLeak(events: seq<Event>) {
    forall e :: e in events ==> !e.Leaked?
  }

  /** The reassembler loses no buffer exactly when each packet brings at most one
      head buffer; otherwise the earlier head of the packet is overwritten. */
  lemma {:induction false} NoLeakExact(pits: seq<Pit>, takes: seq<Take>)
    requires |pits| == |takes|
    ensures NoLeak(Feed(ZeroInfo, pits, takes).events) <==> OneHeadPerPacket(pits, takes)
  {
    if pits != [] {
      var k := |pits| - 1;
      var p, t := pits[..k], takes[..k];
      NoLeakExact(p, t);
      HeldExact(p, t);
      var before := Feed(ZeroInfo, p, t);
      var last := StepPit(before.info, pits[k], takes[k]);
      assert NoLeak(before.events + last.events) <==> NoLeak(before.events) && NoLeak(last.events) by {
        forall e | e in before.events + last.events ensures e in before.events || e in last.events {}
        forall e | e in before.events || e in last.events ensures e in before.events + last.events {}
      }
      LastLeaks(before.info, pits[k], takes[k]);
      OneHeadSnoc(pits, takes);
    }
  }

  lemma LastLeaks(info: Info, pit: Pit, take: Take)
    ensures NoLeak(StepPit(info, pit, take).events) <==> !(pit.IsHead() && take.Took? && info.cur.Skb?)
  {
    var r := StepPit(info, pit, take);
    if pit.IsHead() && take.Took? && info.cur.Skb? {
      assert r.events[0] == Leaked(info.cur.head);
    }
  }

  lemma OneHeadSnoc(pits: seq<Pit>, takes: seq<Take>)
    requires |pits| == |takes| > 0
    ensures var k := |pits| - 1;
            OneHeadPerPacket(pits, takes) <==>
            OneHeadPerPacket(pits[..k], takes[..k]) &&
            !(TakesHead(pits, takes, k) && exists i :: 0 <= i < k && OpenHead(pits[..k], takes[..k], i))
  {
    var k := |pits| - 1;
    var p, t := pits[..k], takes[..k];
    if OneHeadPerPacket(pits, takes) {
      forall i, j | 0 <= i < j < k && TakesHead(p, t, i) && TakesHead(p, t, j)
        ensures exists e :: i <= e < j && p[e].EndsPacket()
      {
        assert TakesHead(pits, takes, i) && TakesHead(pits, takes, j);
        var e :| i <= e < j && pits[e].EndsPacket();
        assert p[e].EndsPacket();
      }
      if TakesHead(pits, takes, k) {
        forall i | 0 <= i < k && TakesHead(p, t, i) ensures !OpenHead(p, t, i) {
          assert TakesHead(pits, takes, i);
          var e :| i <= e < k && pits[e].EndsPacket();
          assert p[e].EndsPacket();
        }
      }
    } else {
      var i, j :| 0 <= i < j < |pits| && TakesHead(pits, takes, i) && TakesHead(pits, takes, j)
                  && !exists e :: i <= e < j && pits[e].EndsPacket();
      assert TakesHead(p, t, i);
      if j < k {
        assert TakesHead(p, t, j);
        assert !exists e :: i <= e < j && p[e].EndsPacket();
      } else {
        assert OpenHead(p, t, i);
      }
    }
  }

  // ----- reference: packets read off the entries -----

  /** Where the packet that entry k belongs to begins: after the last end before k. */
  function PacketStart(pits: seq<Pit>, k: nat): (s: nat)
    requires k <= |pits|
    ensures s <= k && (s > 0 ==> pits[s - 1].EndsPacket())
    ensures forall i :: s <= i < k ==> !pits[i].EndsPacket()
  {
    if k == 0 || pits[k - 1].EndsPacket() then k else PacketStart(pits, k - 1)
  }

  /** The last message entry from s up to, not including, k; -1 if there is none. */
  function LastMsg(pits: seq<Pit>, s: nat, k: nat): (m: int)
    requires s <= k <= |pits|
    ensures m == -1 || (s <= m < k && pits[m].IsMsg())
    ensures forall i :: s <= i < k && m < i ==> !pits[i].IsMsg()
    decreases k
  {
    if k == s then -1 else if pits[k - 1].IsMsg() then k - 1 else LastMsg(pits, s, k - 1)
  }

  /** The last head buffer taken there; -1 if there is none. */
  function LastHead(pits: seq<Pit>, takes: seq<Take>, s: nat, k: nat): (h: int)
    requires |pits| == |takes| && s <= k <= |pits|
    ensures h == -1 || (s <= h < k && TakesHead(pits, takes, h))
    ensures forall i :: s <= i < k && h < i ==> !TakesHead(pits, takes, i)
    decreases k
  {
    if k == s then -1 else if TakesHead(pits, takes, k - 1) then k - 1 else LastHead(pits, takes, s, k - 1)
  }

  /** Entry i of a packet that begins at s is a payload whose buffer could not be
      taken, or a fragment before any head. */
  predicate PayloadFails(pits: seq<Pit>, takes: seq<Take>, s: nat, i: nat)
    requires |pits| == |takes| && s <= i < |pits|
  {
    !pits[i].IsMsg() && (takes[i].Failed? || (pits[i].InFragBuffer() && LastHead(pits, takes, s, i) < 0))
  }

  predicate AnyFails(pits: seq<Pit>, takes: seq<Take>, s: nat, k: nat): (r: bool)
    requires |pits| == |takes| && s <= k <= |pits|
    ensures r <==> exists i :: s <= i < k && PayloadFails(pits, takes, s, i)
    decreases k
  {
    k > s && (AnyFails(pits, takes, s, k - 1) || PayloadFails(pits, takes, s, k - 1))
  }

  predicate TakesFrag(pits: seq<Pit>, takes: seq<Take>, i: nat)
    requires |pits| == |takes| && i < |pits|
  {
    !pits[i].IsMsg() && pits[i].InFragBuffer() && takes[i].Took?
  }

  /** The fragments taken from one entry up to another, in order. */
  function FragsTaken(pits: seq<Pit>, takes: seq<Take>, from: nat, k: nat): (r: seq<nat>)
    requires |pits| == |takes| && from <= k <= |pits|
    decreases k
  {
    if k == from then []
    else FragsTaken(pits, takes, from, k - 1) + if TakesFrag(pits, takes, k - 1) then [takes[k - 1].buf] else []
  }

  predicate AsksDrop(pits: seq<Pit>, s: nat, k: nat)
    requires s <= k <= |pits|
  {
    var m := LastMsg(pits, s, k);
    m >= 0 && pits[m].DropPacket()
  }

  /** The packet that ends at entry k, with the metadata of its last message. */
  function PacketAt(pits: seq<Pit>, takes: seq<Take>, k: nat): Packet
    requires |pits| == |takes| && k < |pits| && LastHead(pits, takes, PacketStart(pits, k), k + 1) >= 0
  {
    var s := PacketStart(pits, k);
    var h, m := LastHead(pits, takes, s, k + 1), LastMsg(pits, s, k);
    Packet(takes[h].buf, FragsTaken(pits, takes, h + 1, k + 1),
           m < 0 || pits[m].Checksum() == 0, if m < 0 then 0 else pits[m].Channel() % 32,
           if m < 0 then 0 else pits[m].IpType())
  }

  /** What entry k brings out: a head it overwrites, and at the end of a packet that
      has a head that packet, or its buffer freed if a payload failed or the modem
      asked for a drop. */
  function Outcomes(pits: seq<Pit>, takes: seq<Take>, k: nat): seq<Event>
    requires |pits| == |takes| && k < |pits|
  {
    var s := PacketStart(pits, k);
    var h, g := LastHead(pits, takes, s, k + 1), LastHead(pits, takes, s, k);
    (if TakesHead(pits, takes, k) && g >= 0 then [Leaked(takes[g].buf)] else [])
    + if !pits[k].EndsPacket() || h < 0 then []
      else if AnyFails(pits, takes, s, k + 1) || AsksDrop(pits, s, k) then [Freed(takes[h].buf)]
      else [Delivered(PacketAt(pits, takes, k))]
  }

  function AllOutcomes(pits: seq<Pit>, takes: seq<Take>, k: nat): seq<Event>
    requires |pits| == |takes| && k <= |pits|
  {
    if k == 0 then [] else AllOutcomes(pits, takes, k - 1) + Outcomes(pits, takes, k - 1)
  }

  /** rx_data_info, told from the entries of the packet so far. */
  ghost predicate Means(info: Info, pits: seq<Pit>, takes: seq<Take>, s: nat, k: nat)
    requires |pits| == |takes| && s <= k <= |pits|
  {
    var m, h := LastMsg(pits, s, k), LastHead(pits, takes, s, k);
    && (info.msgReceived <==> m >= 0)
    && info.channel == (if m < 0 then 0 else pits[m].Channel())
    && info.checksum == (if m < 0 then 0 else pits[m].Checksum())
    && info.pktType == (if m < 0 then 0 else pits[m].IpType())
    && (info.drop <==> AsksDrop(pits, s, k))
    && (info.err <==> AnyFails(pits, takes, s, k))
    && info.cur == if h < 0 then Nothing else Skb(takes[h].buf, FragsTaken(pits, takes, h + 1, k))
  }

  lemma MeansMsg(info: Info, pits: seq<Pit>, takes: seq<Take>, s: nat, k: nat)
    requires |pits| == |takes| && s <= k < |pits| && Means(info, pits, takes, s, k) && pits[k].IsMsg()
    ensures Means(ParseMsg(info, pits[k]), pits, takes, s, k + 1)
  {
    hide Pit.IsMsg, Pit.Channel, Pit.Checksum, Pit.IpType, Pit.DropPacket, Pit.InFragBuffer;
    var h := LastHead(pits, takes, s, k);
    assert LastHead(pits, takes, s, k + 1) == h;
  }

  lemma MeansPayload(info: Info, pits: seq<Pit>, takes: seq<Take>, s: nat, k: nat)
    requires |pits| == |takes| && s <= k < |pits| && Means(info, pits, takes, s, k) && !pits[k].IsMsg()
    ensures Means(AddPayload(info, pits[k], takes[k]), pits, takes, s, k + 1)
    ensures PayloadBad(info, pits[k], takes[k]) <==> PayloadFails(pits, takes, s, k)
  {
    hide Pit.IsMsg, Pit.Channel, Pit.Checksum, Pit.IpType, Pit.DropPacket, Pit.InFragBuffer;
    var h := LastHead(pits, takes, s, k);
    assert LastMsg(pits, s, k + 1) == LastMsg(pits, s, k);
    assert AnyFails(pits, takes, s, k + 1) == (AnyFails(pits, takes, s, k) || PayloadFails(pits, takes, s, k));
  }

  lemma MeansNothing(pits: seq<Pit>, takes: seq<Take>, k: nat)
    requires |pits| == |takes| && k <= |pits|
    ensures Means(ZeroInfo, pits, takes, k, k)
  {
  }

  lemma NextStart(pits: seq<Pit>, k: nat)
    requires k < |pits|
    ensures PacketStart(pits, k + 1) == if pits[k].EndsPacket() then k + 1 else PacketStart(pits, k)
  {
  }

  lemma FinishMeans(next: Info, pits: seq<Pit>, takes: seq<Take>, k: nat)
    requires |pits| == |takes| && k < |pits| && !pits[k].IsMsg()
    requires Means(next, pits, takes, PacketStart(pits, k), k + 1)
    ensures var s := PacketStart(pits, k);
            var h := LastHead(pits, takes, s, k + 1);
            Finish(next) ==
              if h < 0 then []
              else if AnyFails(pits, takes, s, k + 1) || AsksDrop(pits, s, k) then [Freed(takes[h].buf)]
              else [Delivered(PacketAt(pits, takes, k))]
  {
    hide Pit.IsMsg, Pit.Channel, Pit.Checksum, Pit.IpType, Pit.DropPacket, FragsTaken, AnyFails, PacketStart;
    var s := PacketStart(pits, k);
    assert LastMsg(pits, s, k + 1) == LastMsg(pits, s, k);
  }

  /** One entry: the reassembler does what the entries of the packet say. */
  lemma StepMeans(info: Info, pits: seq<Pit>, takes: seq<Take>, k: nat)
    requires |pits| == |takes| && k < |pits| && Means(info, pits, takes, PacketStart(pits, k), k)
    ensures var r := StepPit(info, pits[k], takes[k]);
            Means(r.info, pits, takes, PacketStart(pits, k + 1), k + 1) && r.events == Outcomes(pits, takes, k)
    ensures !pits[k].IsMsg() ==>
              (PayloadBad(info, pits[k], takes[k]) <==> PayloadFails(pits, takes, PacketStart(pits, k), k))
  {
    var s := PacketStart(pits, k);
    NextStart(pits, k);
    CurMeans(info, pits, takes, s, k);
    hide Means, ParseMsg, AddPayload, Finish, PacketStart, AnyFails, PayloadFails, PayloadBad, PacketAt, AsksDrop;
    hide LastHead, Pit.IsMsg, Pit.More, Pit.InFragBuffer;
    if pits[k].IsMsg() {
      MeansMsg(info, pits, takes, s, k);
    } else {
      MeansPayload(info, pits, takes, s, k);
      FinishMeans(AddPayload(info, pits[k], takes[k]), pits, takes, k);
      MeansNothing(pits, takes, k + 1);
    }
  }

  lemma CurMeans(info: Info, pits: seq<Pit>, takes: seq<Take>, s: nat, k: nat)
    requires |pits| == |takes| && s <= k <= |pits| && Means(info, pits, takes, s, k)
    ensures var h := LastHead(pits, takes, s, k);
            && (info.cur.Skb? <==> h >= 0)
            && (h >= 0 ==> info.cur.head == takes[h].buf)
  {
  }

  /** What comes out of any entry stream, entry by entry, and what is being built. */
  lemma {:induction false} FeedMeans(pits: seq<Pit>, takes: seq<Take>, k: nat)
    requires |pits| == |takes| && k <= |pits|
    ensures Feed(ZeroInfo, pits[..k], takes[..k]).events == AllOutcomes(pits, takes, k)
    ensures Means(Feed(ZeroInfo, pits[..k], takes[..k]).info, pits, takes, PacketStart(pits, k), k)
  {
    hide Feed, StepPit, Means, Outcomes, PacketStart;
    if k == 0 {
      FeedNothing();
      assert pits[..0] == [] && takes[..0] == [];
      StartsAtZero(pits);
      MeansNothing(pits, takes, 0);
    } else {
      FeedMeans(pits, takes, k - 1);
      FeedAt(pits, takes[..k - 1], k - 1, takes[k - 1]);
      assert takes[..k] == takes[..k - 1] + [takes[k - 1]];
      StepMeans(Feed(ZeroInfo, pits[..k - 1], takes[..k - 1]).info, pits, takes, k - 1);
    }
  }

  lemma StartsAtZero(pits: seq<Pit>)
    ensures PacketStart(pits, 0) == 0
  {
  }

  /** At the end of a packet: it is delivered if and only if a head was taken since the
      previous end, no payload since then failed, and the last message since then does
      not ask for a drop; it is then the last head with the fragments taken after it. */
  lemma DeliveredExact(pits: seq<Pit>, takes: seq<Take>, k: nat)
    requires |pits| == |takes| && k < |pits| && pits[k].EndsPacket()
    ensures var before := Feed(ZeroInfo, pits[..k], takes[..k]).events;
            var after := Feed(ZeroInfo, pits[..k + 1], takes[..k + 1]).events;
            var s := PacketStart(pits, k);
            && before <= after
            && ((exists p :: Delivered(p) in after[|before|..]) <==>
                (exists h :: s <= h <= k && TakesHead(pits, takes, h))
                && (forall i :: s <= i <= k ==> !PayloadFails(pits, takes, s, i))
                && !AsksDrop(pits, s, k))
            && (forall p :: Delivered(p) in after[|before|..] ==>
                  LastHead(pits, takes, s, k + 1) >= 0 && p == PacketAt(pits, takes, k))
  {
    FeedMeans(pits, takes, k);
    FeedMeans(pits, takes, k + 1);
    hide Feed, Means, PacketAt;
    var before, s := AllOutcomes(pits, takes, k), PacketStart(pits, k);
    assert (before + Outcomes(pits, takes, k))[|before|..] == Outcomes(pits, takes, k);
    assert AnyFails(pits, takes, s, k + 1) <==> exists i :: s <= i <= k && PayloadFails(pits, takes, s, i);
    var h := LastHead(pits, takes, s, k + 1);
    assert h < 0 <==> !exists i :: s <= i <= k && TakesHead(pits, takes, i);
    hide Outcomes;
    OutcomesDelivered(pits, takes, k);
  }

  lemma OutcomesDelivered(pits: seq<Pit>, takes: seq<Take>, k: nat)
    requires |pits| == |takes| && k < |pits| && pits[k].EndsPacket()
    ensures var s := PacketStart(pits, k);
            var good := LastHead(pits, takes, s, k + 1) >= 0 && !AnyFails(pits, takes, s, k + 1) && !AsksDrop(pits, s, k);
            && ((exists p :: Delivered(p) in Outcomes(pits, takes, k)) <==> good)
            && (forall p :: Delivered(p) in Outcomes(pits, takes, k) ==> good && p == PacketAt(pits, takes, k))
  {
    hide AnyFails, AsksDrop;
    var s := PacketStart(pits, k);
    var out := Outcomes(pits, takes, k);
    if LastHead(pits, takes, s, k + 1) >= 0 && !AnyFails(pits, takes, s, k + 1) && !AsksDrop(pits, s, k) {
      assert out[|out| - 1] == Delivered(PacketAt(pits, takes, k));
    }
  }

  /** The last payload entry before k; -1 if there is none. */
  function LastPayload(pits: seq<Pit>, k: nat): (i: int)
    requires k <= |pits|
    ensures i == -1 || (0 <= i < k && !pits[i].IsMsg())
    ensures forall j :: 0 <= j < k && i < j ==> pits[j].IsMsg()
  {
    if k == 0 then -1 else if !pits[k - 1].IsMsg() then k - 1 else LastPayload(pits, k - 1)
  }

  /** The error a poll reports, told from the entries: the last payload entry failed. */
  lemma {:induction false} LastPayloadBadExact(pits: seq<Pit>, takes: seq<Take>, k: nat)
    requires |pits| == |takes| && k <= |pits|
    ensures LastPayloadBad(pits[..k], takes[..k]) <==>
            var i := LastPayload(pits, k); i >= 0 && PayloadFails(pits, takes, PacketStart(pits, i), i)
  {
    hide Feed, LastPayloadBad, PayloadFails, PayloadBad, StepPit, PacketStart, Means, Pit.IsMsg;
    if k > 0 {
      FeedMeans(pits, takes, k - 1);
      StepMeans(Feed(ZeroInfo, pits[..k - 1], takes[..k - 1]).info, pits, takes, k - 1);
      FeedAt(pits, takes[..k - 1], k - 1, takes[k - 1]);
      assert takes[..k] == takes[..k - 1] + [takes[k - 1]];
      LastPayloadBadExact(pits, takes, k - 1);
    } else {
      NothingBad();
      assert pits[..0] == [] && takes[..0] == [];
    }
  }

  lemma NothingBad()
    ensures !LastPayloadBad([], [])
  {
  }

  // ----- reference: what the modem sent -----

  /** A packet as the modem announces and places it. */
  datatype Arrival = Arrival(
    channel: nat, checksum: nat, drop: bool, ipType: nat,
    bid: nat, head: nat, frags: seq<(nat, nat)>)   // frags: (buffer id, page)
  {
    predicate Fits() {
      && channel < 0x100 && checksum < 4 && ipType < 2 && bid < 0x1_0000
      && forall i :: 0 <= i < |frags| ==> frags[i].0 < 0x1_0000
    }
  }

  function MsgPit(channel: nat, checksum: nat, drop: bool, ipType: nat, seqNo: nat): Pit {
    Pit(1 + checksum * 4 + channel * 0x1_0000 + (if drop then 0x8000_0000 else 0), seqNo + ipType * 0x80_0000)
  }

  function PdPit(frag: bool, more: bool, bid: nat, seqNo: nat): Pit {
    Pit((if more then 2 else 0) + (if frag then 4 else 0) + bid % 0x2000 * 8, seqNo + bid / 0x2000 * 0x100)
  }

  /** Fields of a word put together from the low end read back. */
  lemma MsgHeader(ck: nat, ch: nat, d: nat)
    requires ck < 4 && ch < 0x100 && d < 2
    ensures var h := 1 + ck * 4 + ch * 0x1_0000 + d * 0x8000_0000;
            h % 2 == 1 && (h / 4) % 4 == ck && (h / 0x1_0000) % 0x100 == ch && (h / 0x8000_0000) % 2 == d
  {
    var h := 1 + ck * 4 + ch * 0x1_0000 + d * 0x8000_0000;
    assert h / 4 == ck + 4 * (ch * 0x1000 + d * 0x800_0000);
    assert h / 0x1_0000 == ch + 0x100 * (d * 0x80);
    assert h / 0x8000_0000 == d;
  }

  lemma PdHeader(m: nat, f: nat, b: nat)
    requires m < 2 && f < 2 && b < 0x2000
    ensures var h := m * 2 + f * 4 + b * 8;
            h % 2 == 0 && (h / 2) % 2 == m && (h / 4) % 2 == f && (h / 8) % 0x2000 == b
  {
    var h := m * 2 + f * 4 + b * 8;
    var h2, h4 := m + 2 * f + 4 * b, f + 2 * b;
    Halve(h2, 0);
    Halve(h4, m);
    Halve(b, f);
    assert h == 2 * h2 && h2 == 2 * h4 + m && h4 == 2 * b + f;
    assert h / 4 == (h / 2) / 2 && h / 8 == (h / 4) / 2;
  }

  lemma Halve(x: nat, bit: nat)
    requires bit < 2
    ensures (2 * x + bit) / 2 == x && (2 * x + bit) % 2 == bit
  {
  }

  lemma PdFooter(seqNo: nat, hi: nat)
    requires seqNo < 0x100 && hi < 8
    ensures (seqNo + hi * 0x100) % 0x100 == seqNo && ((seqNo + hi * 0x100) / 0x100) % 8 == hi
  {
    assert (seqNo + hi * 0x100) / 0x100 == hi;
  }

  lemma MsgPitFields(channel: nat, checksum: nat, drop: bool, ipType: nat, seqNo: nat)
    requires channel < 0x100 && checksum < 4 && ipType < 2 && seqNo < 0x100
    ensures var p := MsgPit(channel, checksum, drop, ipType, seqNo);
            p.IsMsg() && p.Channel() == channel && p.Checksum() == checksum
            && p.DropPacket() == drop && p.IpType() == ipType && p.SeqNo() == seqNo
  {
    MsgHeader(checksum, channel, if drop then 1 else 0);
  }

  lemma PdPitFields(frag: bool, more: bool, bid: nat, seqNo: nat)
    requires bid < 0x1_0000 && seqNo < 0x100
    ensures var p := PdPit(frag, more, bid, seqNo);
            !p.IsMsg() && p.InFragBuffer() == frag && p.More() == more && p.BufferId() == bid && p.SeqNo() == seqNo
  {
    PdHeader(if more then 1 else 0, if frag then 1 else 0, bid % 0x2000);
    PdFooter(seqNo, bid / 0x2000);
  }

  /** The entries of one arrival, numbered from position c on. */
  function Entries(a: Arrival, c: nat): (r: seq<Pit>)
    ensures |r| == |a.frags| + 2
  {
    [MsgPit(a.channel, a.checksum, a.drop, a.ipType, c % PIT_SEQ_VALUE),
     PdPit(false, a.frags != [], a.bid, (c + 1) % PIT_SEQ_VALUE)]
    + seq(|a.frags|, i requires 0 <= i < |a.frags| =>
            PdPit(true, i + 1 < |a.frags|, a.frags[i].0, (c + 2 + i) % PIT_SEQ_VALUE))
  }

  function Pages(a: Arrival, k: nat): (r: seq<nat>)
    requires k <= |a.frags|
    ensures |r| == k
  {
    seq(k, i requires 0 <= i < |a.frags| => a.frags[i].1)
  }

  function Taken(a: Arrival): (r: seq<Take>)
    ensures |r| == |a.frags| + 2
  {
    [Failed, Took(a.head)] + seq(|a.frags|, i requires 0 <= i < |a.frags| => Took(a.frags[i].1))
  }

  function Outcome(a: Arrival): Event {
    if a.drop then Freed(a.head)
    else Delivered(Packet(a.head, Pages(a, |a.frags|), a.checksum == 0, a.channel % 32, a.ipType))
  }

  function Partial(a: Arrival, k: nat): Info
    requires k <= |a.frags|
  {
    Info(true, Skb(a.head, Pages(a, k)), a.channel, a.checksum, a.drop, a.ipType, false)
  }

  lemma ArrivalStart(a: Arrival, c: nat)
    requires a.Fits()
    ensures Feed(ZeroInfo, Entries(a, c)[..2], Taken(a)[..2]) == AfterFrags(a, 0)
  {
    hide Feed;
    var es, ts := Entries(a, c), Taken(a);
    MsgPitFields(a.channel, a.checksum, a.drop, a.ipType, c % PIT_SEQ_VALUE);
    PdPitFields(false, a.frags != [], a.bid, (c + 1) % PIT_SEQ_VALUE);
    FeedNothing();
    FeedSnoc(ZeroInfo, [], [], es[0], ts[0]);
    FeedSnoc(ZeroInfo, [es[0]], [ts[0]], es[1], ts[1]);
    assert [] + [es[0]] == [es[0]] && [] + [ts[0]] == [ts[0]];
    assert es[..2] == [es[0]] + [es[1]] && ts[..2] == [ts[0]] + [ts[1]];
    assert Pages(a, 0) == [];
    hide Entries, Taken, MsgPit, PdPit;
  }

  /** After the message, the head and k of the fragments. */
  lemma {:induction false} ArrivalPrefix(a: Arrival, c: nat, k: nat)
    requires a.Fits() && k <= |a.frags|
    ensures Feed(ZeroInfo, Entries(a, c)[..2 + k], Taken(a)[..2 + k]) == AfterFrags(a, k)
  {
    hide Feed, StepPit, Outcome;
    if k == 0 {
      ArrivalStart(a, c);
    } else {
      var es, ts := Entries(a, c), Taken(a);
      var pit, take := es[1 + k], ts[1 + k];
      ArrivalPrefix(a, c, k - 1);
      FeedSnoc(ZeroInfo, es[..1 + k], ts[..1 + k], pit, take);
      assert es[..2 + k] == es[..1 + k] + [pit] && ts[..2 + k] == ts[..1 + k] + [take];
      PdPitFields(true, k < |a.frags|, a.frags[k - 1].0, (c + 1 + k) % PIT_SEQ_VALUE);
      FragStep(a, k, pit);
    }
  }

  function AfterFrags(a: Arrival, k: nat): Result
    requires k <= |a.frags|
  {
    if k < |a.frags| then Result(Partial(a, k), []) else Result(ZeroInfo, [Outcome(a)])
  }

  lemma FragStep(a: Arrival, k: nat, pit: Pit)
    requires 0 < k <= |a.frags|
    requires !pit.IsMsg() && pit.InFragBuffer() && pit.More() == (k < |a.frags|)
    ensures StepPit(Partial(a, k - 1), pit, Took(a.frags[k - 1].1)) == AfterFrags(a, k)
  {
    assert Pages(a, k) == Pages(a, k - 1) + [a.frags[k - 1].1];
  }

  lemma FeedNothing()
    ensures Feed(ZeroInfo, [], []) == Result(ZeroInfo, [])
  {
  }

  function AllEntries(as_: seq<Arrival>): seq<Pit> {
    if as_ == [] then []
    else
      var before := AllEntries(as_[..|as_| - 1]);
      before + Entries(as_[|as_| - 1], |before|)
  }

  function AllTaken(as_: seq<Arrival>): (r: seq<Take>)
    ensures |r| == |AllEntries(as_)|
  {
    if as_ == [] then [] else AllTaken(as_[..|as_| - 1]) + Taken(as_[|as_| - 1])
  }

  /** Round trip: for any list of packets the modem describes, reassembling their
      entries yields those packets, in order, with their own metadata. */
  lemma {:induction false} ReassemblyRoundTrip(as_: seq<Arrival>)
    requires forall i :: 0 <= i < |as_| ==> as_[i].Fits()
    ensures Feed(ZeroInfo, AllEntries(as_), AllTaken(as_)) ==
            Result(ZeroInfo, seq(|as_|, i requires 0 <= i < |as_| => Outcome(as_[i])))
  {
    hide Feed, Entries, Taken, Outcome;
    FeedNothing();
    if as_ != [] {
      var k := |as_| - 1;
      var a := as_[k];
      ReassemblyRoundTrip(as_[..k]);
      var p, t := AllEntries(as_[..k]), AllTaken(as_[..k]);
      FeedSplit(ZeroInfo, p, t, Entries(a, |p|), Taken(a));
      ArrivalPrefix(a, |p|, |a.frags|);
      assert Entries(a, |p|)[..2 + |a.frags|] == Entries(a, |p|);
      assert Taken(a)[..2 + |a.frags|] == Taken(a);
      assert seq(|as_|, i requires 0 <= i < |as_| => Outcome(as_[i]))
          == seq(k, i requires 0 <= i < k => Outcome(as_[..k][i])) + [Outcome(a)];
    }
  }

  /** The entries of any list of arrivals carry the sequence numbers the driver
      expects: entry c carries c modulo 251. */
  lemma {:induction false} EntriesNumbered(as_: seq<Arrival>, c: nat)
    requires forall i :: 0 <= i < |as_| ==> as_[i].Fits()
    requires c < |AllEntries(as_)|
    ensures AllEntries(as_)[c].SeqNo() == c % PIT_SEQ_VALUE
  {
    hide MsgPit, PdPit, Pit.SeqNo, Pit.IsMsg, Pit.More, Pit.InFragBuffer, Pit.BufferId;
    hide Pit.Channel, Pit.Checksum, Pit.DropPacket, Pit.IpType;
    var k := |as_| - 1;
    var before := AllEntries(as_[..k]);
    var a := as_[k];
    if c < |before| {
      EntriesNumbered(as_[..k], c);
    } else if c == |before| {
      MsgPitFields(a.channel, a.checksum, a.drop, a.ipType, c % PIT_SEQ_VALUE);
    } else if c == |before| + 1 {
      PdPitFields(false, a.frags != [], a.bid, c % PIT_SEQ_VALUE);
    } else {
      var i := c - |before| - 2;
      PdPitFields(true, i + 1 < |a.frags|, a.frags[i].0, c % PIT_SEQ_VALUE);
    }
  }

  /** A number n positions old is the one expected exactly when 251 divides n. */
  lemma NumberRepeats(n: nat, c: nat)
    requires n <= c
    ensures (c - n) % PIT_SEQ_VALUE == c % PIT_SEQ_VALUE <==> n % PIT_SEQ_VALUE == 0
  {
  }
}
