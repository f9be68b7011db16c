/** A control receive ring: buffers are taken at tr_done and replaced at rx_refill,
    which fall apart when an allocation fails
    (src/t7xx_hif_cldma.c:91-194, 419-450, 506-518). */
module CldmaRx {
  import opened Ring
  import opened DrbStream
  import opened Errno
  import PortProxy

  /** Positions count requests since the ring was set up; the slot of position c is
      Idx(n, c). A packet is the status word of its header. */
  datatype State = State(
    n: RingSize,
    skb: seq<Option<nat>>,   // buffers by number, as allocated
    hwo: seq<bool>,
    data: seq<nat>,          // what the hardware wrote into the buffer
    done: nat,               // tr_done
    refill: nat,             // rx_refill
    stream: seq<nat>,        // packets the hardware has written, in order
    nextSkb: nat,
    failed: nat)             // refills that failed

  ghost predicate Shape(s: State) {
    |s.skb| == |s.hwo| == |s.data| == s.n
  }

  function Init(n: RingSize): State {
    State(n, seq(n, i => Some(i)), seq(n, _ => true), seq(n, _ => 0), 0, 0, [], n, 0)
  }

  /** The hardware fills the next descriptor it owns. */
  function Filled(s: State, packet: nat): (t: State)
    requires Shape(s)
    ensures Shape(t) && t.n == s.n
  {
    var i := Idx(s.n, |s.stream|);
    if s.hwo[i] then
      s.(hwo := s.hwo[i := false], data := s.data[i := packet], stream := s.stream + [packet])
    else s
  }

  predicate Takeable(s: State)
    requires |s.skb| == |s.hwo| == s.n
  {
    var i := Idx(s.n, s.done);
    !s.hwo[i] && s.skb[i].Some?
  }

  function Taken(s: State): (t: State)
    requires Shape(s)
    ensures Shape(t) && t.n == s.n
  {
    if Takeable(s) then s.(skb := s.skb[Idx(s.n, s.done) := None], done := s.done + 1) else s
  }

  /** Only one request is refilled per packet taken, so a failure leaves a debt. */
  function Refilled(s: State, gotSkb: bool): (t: State)
    requires Shape(s)
    ensures Shape(t) && t.n == s.n
  {
    var i := Idx(s.n, s.refill);
    if !gotSkb then s.(failed := s.failed + 1)
    else s.(skb := s.skb[i := Some(s.nextSkb)], hwo := s.hwo[i := true], refill := s.refill + 1,
            nextSkb := s.nextSkb + 1)
  }

  /** A packet is taken and its replacement tried, or nothing happens. */
  function Consumed(s: State, gotSkb: bool): (t: State)
    requires Shape(s)
    ensures Shape(t) && t.n == s.n
  {
    if Takeable(s) then Refilled(Taken(s), gotSkb) else s
  }

  // ----- the invariant -----

  /** From tr_done on: filled and unread, then owned by the hardware, then empty. The
      empty slots are the circular range from rx_refill to tr_done; the hardware owns
      no slot without a buffer; every failed refill is one buffer missing. */
  ghost predicate RingOk(s: State, slack: nat)
    requires Shape(s)
  {
    && s.refill <= s.done <= |s.stream| <= s.refill + s.n
    && s.done - s.refill == s.failed + slack
    && (forall c :: s.done <= c < |s.stream| ==>
          s.skb[Idx(s.n, c)].Some? && !s.hwo[Idx(s.n, c)] && s.data[Idx(s.n, c)] == s.stream[c])
    && (forall c :: |s.stream| <= c < s.refill + s.n ==> s.skb[Idx(s.n, c)].Some? && s.hwo[Idx(s.n, c)])
    && (forall c :: s.refill + s.n <= c < s.done + s.n ==> s.skb[Idx(s.n, c)].None? && !s.hwo[Idx(s.n, c)])
  }

  /** Buffers in the table are distinct and were allocated. */
  ghost predicate Distinct(skb: seq<Option<nat>>, nextSkb: nat) {
    && (forall i :: 0 <= i < |skb| && skb[i].Some? ==> skb[i].value < nextSkb)
    && (forall i, j :: 0 <= i < j < |skb| && skb[i].Some? && skb[j].Some? ==> skb[i].value != skb[j].value)
  }

  ghost predicate Inv(s: State) {
    Shape(s) && RingOk(s, 0) && Distinct(s.skb, s.nextSkb)
  }

  lemma InitInv(n: RingSize)
    ensures Inv(Init(n))
  {
  }

  lemma FilledInv(s: State, packet: nat)
    requires Inv(s)
    ensures Inv(Filled(s, packet))
  {
    var e := |s.stream|;
    if s.hwo[Idx(s.n, e)] {
      if e == s.refill + s.n {
        HwDone(s);
      }
      forall c | s.done <= c < s.done + s.n && c != e ensures Idx(s.n, c) != Idx(s.n, e) {
        if Idx(s.n, c) == Idx(s.n, e) {
          IdxInjective(s.n, s.done, c, e);
        }
      }
    }
  }

  /** When the hardware has filled everything it was given it owns nothing. */
  lemma HwDone(s: State)
    requires Inv(s)
    ensures |s.stream| == s.refill + s.n ==> !s.hwo[Idx(s.n, |s.stream|)]
    ensures |s.stream| < s.refill + s.n <==> s.hwo[Idx(s.n, |s.stream|)]
  {
    if |s.stream| == s.refill + s.n && s.refill == s.done {
      IdxAdd(s.n, s.done, s.n);
      assert s.done < |s.stream|;
      assert !s.hwo[Idx(s.n, s.done)];
    }
  }

  lemma TakeableExact(s: State)
    requires Inv(s)
    ensures Takeable(s) <==> s.done < |s.stream|
    ensures Takeable(s) ==> s.data[Idx(s.n, s.done)] == s.stream[s.done]
  {
  }

  lemma TakenRing(s: State)
    requires Inv(s) && Takeable(s)
    ensures RingOk(Taken(s), 1)
  {
    TakeableExact(s);
    var t := Taken(s);
    IdxAdd(s.n, s.done, s.n);
    forall c | s.done < c < s.done + s.n ensures Idx(s.n, c) != Idx(s.n, s.done) {
      if Idx(s.n, c) == Idx(s.n, s.done) {
        IdxInjective(s.n, s.done, c, s.done);
      }
    }
    forall c | t.refill + t.n <= c < t.done + t.n ensures t.skb[Idx(s.n, c)].None? && !t.hwo[Idx(s.n, c)] {
      if c == s.done + s.n {
        assert Idx(s.n, c) == Idx(s.n, s.done);
      }
    }
  }

  /** The refill target is the oldest empty slot: no buffer is overwritten, and no
      slot the hardware owns is handed to it again. */
  lemma RefillTargetEmpty(t: State, slack: nat)
    requires Shape(t) && RingOk(t, slack) && t.refill < t.done
    ensures t.skb[Idx(t.n, t.refill)].None? && !t.hwo[Idx(t.n, t.refill)]
  {
    IdxAdd(t.n, t.refill, t.n);
    assert t.skb[Idx(t.n, t.refill + t.n)].None?;
  }

  lemma RefilledRing(t: State, gotSkb: bool)
    requires Shape(t) && RingOk(t, 1)
    ensures RingOk(Refilled(t, gotSkb), 0)
  {
    RefillTargetEmpty(t, 1);
    var u := Refilled(t, gotSkb);
    if gotSkb {
      IdxAdd(t.n, t.refill, t.n);
      forall c | t.done <= c < t.done + t.n && c != t.refill + t.n ensures Idx(t.n, c) != Idx(t.n, t.refill) {
        if Idx(t.n, c) == Idx(t.n, t.refill + t.n) {
          IdxInjective(t.n, t.done, c, t.refill + t.n);
        }
      }
    }
  }

  lemma ConsumedInv(s: State, gotSkb: bool)
    requires Inv(s)
    ensures Inv(Consumed(s, gotSkb))
  {
    if Takeable(s) {
      TakenRing(s);
      RefilledRing(Taken(s), gotSkb);
      hide RingOk;
    }
  }

  // ----- whole runs -----

  datatype Event = Fill(packet: nat) | Consume(gotSkb: bool)

  function Apply(s: State, e: Event): (t: State)
    requires Shape(s)
    ensures Shape(t) && t.n == s.n
  {
    match e
    case Fill(packet) => Filled(s, packet)
    case Consume(gotSkb) => Consumed(s, gotSkb)
  }

  function Run(s: State, events: seq<Event>): (t: State)
    requires Shape(s)
    ensures Shape(t) && t.n == s.n
  {
    if events == [] then s else Apply(Run(s, events[..|events| - 1]), events[|events| - 1])
  }

  /** Over any run with failing refills the ring keeps its shape. */
  lemma {:induction false} RunInv(s: State, events: seq<Event>)
    requires Inv(s)
    ensures Inv(Run(s, events))
  {
    if events != [] {
      var k := |events| - 1;
      RunInv(s, events[..k]);
      var m := Run(s, events[..k]);
      match events[k]
      case Fill(packet) => FilledInv(m, packet);
      case Consume(gotSkb) => ConsumedInv(m, gotSkb);
    }
  }

  /** In every reachable state the empty slots are exactly the circular range from
      rx_refill to tr_done, as many as refills failed, and the hardware owns no slot
      without a buffer. */
  lemma ReachableRing(n: RingSize, events: seq<Event>)
    ensures var s := Run(Init(n), events);
            && s.refill <= s.done <= s.refill + n && s.done - s.refill == s.failed
            && (forall i :: 0 <= i < n ==> (s.skb[i].None? <==> Live(n, s.refill, s.done, i)))
            && (forall i :: 0 <= i < n && s.hwo[i] ==> s.skb[i].Some?)
  {
    InitInv(n);
    RunInv(Init(n), events);
    var s := Run(Init(n), events);
    hide Run;
    forall i | 0 <= i < n
      ensures s.skb[i].None? <==> Live(n, s.refill, s.done, i)
      ensures s.hwo[i] ==> s.skb[i].Some?
    {
      var c := PositionOf(n, s.refill, i);
      IdxAdd(n, c, n);
    }
  }

  function BufferCount(skb: seq<Option<nat>>): nat {
    if skb == [] then 0 else BufferCount(skb[..|skb| - 1]) + if skb[|skb| - 1].Some? then 1 else 0
  }

  lemma {:induction false} CountUpdate(skb: seq<Option<nat>>, i: nat, o: Option<nat>)
    requires i < |skb|
    ensures BufferCount(skb[i := o]) ==
            BufferCount(skb) - (if skb[i].Some? then 1 else 0) + (if o.Some? then 1 else 0)
  {
    var k := |skb| - 1;
    if i == k {
      assert skb[i := o][..k] == skb[..k];
    } else {
      CountUpdate(skb[..k], i, o);
      assert skb[i := o][..k] == skb[..k][i := o];
    }
  }

  lemma {:induction false} FullCount(skb: seq<Option<nat>>)
    requires forall i :: 0 <= i < |skb| ==> skb[i].Some?
    ensures BufferCount(skb) == |skb|
  {
    if skb != [] {
      FullCount(skb[..|skb| - 1]);
    }
  }

  /** In every reachable state the ring is short of exactly the failed refills. */
  lemma {:induction false} BuffersMissing(n: RingSize, events: seq<Event>)
    ensures var t := Run(Init(n), events); BufferCount(t.skb) == n - t.failed
  {
    if events == [] {
      FullCount(Init(n).skb);
    } else {
      var k := |events| - 1;
      BuffersMissing(n, events[..k]);
      InitInv(n);
      RunInv(Init(n), events[..k]);
      MissingStep(Run(Init(n), events[..k]), events[k]);
    }
  }

  lemma MissingStep(s: State, e: Event)
    requires Inv(s) && BufferCount(s.skb) == s.n - s.failed
    ensures BufferCount(Apply(s, e).skb) == s.n - Apply(s, e).failed
  {
    if e.Consume? && Takeable(s) {
      TakenRing(s);
      var t := Taken(s);
      RefillTargetEmpty(t, 1);
      hide RingOk;
      CountUpdate(s.skb, Idx(s.n, s.done), None);
      CountUpdate(t.skb, Idx(s.n, s.refill), Some(s.nextSkb));
    }
  }

  // ----- the queue object -----

  /** What one turn of the receive loop meets. */
  datatype Turn = Turn(
    arrivals: seq<nat>,  // packets the hardware writes first
    others: seq<PortProxy.PortAct>,  // what readers and other queues do to the ports
    present: bool,       // the PCIe link is up
    atGpd: bool,         // the hardware's current descriptor is the one at tr_done
    gotSkb: bool,        // the refill allocation succeeds
    resched: bool,       // the scheduler wants the CPU
    mdValid: bool)       // the modem state is not MD_STATE_INVALID

  const HWO_POLL_LIMIT := 100

  /** The packets of log entries. */
  function Packets(entries: seq<PortProxy.Entry>): (r: seq<nat>)
    ensures |r| == |entries|
  {
    seq(|entries|, i requires 0 <= i < |entries| => entries[i].skb.status)
  }

  /** A log in which this queue's packets are those consumed so far takes one more. */
  lemma PacketLogged(log: seq<PortProxy.Entry>, e: PortProxy.Entry, queue: PortProxy.QueueId, stream: seq<nat>, c: nat)
    requires c < |stream| && Packets(PortProxy.FromQueue(log, queue)) == stream[..c]
    requires e.queue == queue && e.skb.status == stream[c]
    ensures Packets(PortProxy.FromQueue(log + [e], queue)) == stream[..c + 1]
  {
    PortProxy.FromQueueSnoc(log, e, queue);
    hide PortProxy.FromQueue;
    var was := PortProxy.FromQueue(log, queue);
    assert Packets(was + [e]) == Packets(was) + [e.skb.status];
  }

  /** struct cldma_queue of a receive direction, delivering to a port proxy. */
  class RxQueue {
    const n: RingSize
    const queue: PortProxy.QueueId
    const proxy: PortProxy.Proxy
    const skb: array<Option<nat>>
    const hwo: array<bool>
    const data: array<nat>
    var trDone: nat
    var rxRefill: nat
    var hwNext: nat
    var nextSkb: nat
    ghost var done: nat
    ghost var refill: nat
    ghost var stream: seq<nat>
    ghost var failed: nat

    ghost predicate Shaped()
      reads this
    {
      && skb.Length == n && hwo.Length == n && data.Length == n
      && trDone == Idx(n, done) && rxRefill == Idx(n, refill) && hwNext == Idx(n, |stream|)
    }

    ghost function View(): (s: State)
      requires skb.Length == n && hwo.Length == n && data.Length == n
      reads this, skb, hwo, data
      ensures Shape(s)
    {
      State(n, skb[..], hwo[..], data[..], done, refill, stream, nextSkb, failed)
    }

    ghost predicate Valid()
      reads this, skb, hwo, data
    {
      Shaped() && Inv(View())
    }

    /** The proxy's log holds exactly the packets this queue has consumed, in order. */
    ghost predicate Joined()
      reads this`stream, this`done, proxy`log
    {
      done <= |stream| && Packets(PortProxy.FromQueue(proxy.log, queue)) == stream[..done]
    }

    /** The control path over whole runs: a control port fed by this queue has received
        exactly its share of the packets the hardware wrote and the queue consumed. */
    lemma ControlPath(i: nat)
      requires Joined() && proxy.Valid() && i < |proxy.ports| && proxy.ports[i].conf.kind.Control?
      requires forall e :: e in proxy.log && PortProxy.RoutesTo(proxy.ports, e) == i ==> e.queue == queue
      ensures var mine := PortProxy.FromQueue(proxy.log, queue);
              && proxy.ports[i].got == PortProxy.Routable(proxy.ports, mine, i)
              && done <= |stream| && Packets(mine) == stream[..done]
    {
      hide PortProxy.RoutesTo, PortProxy.Routable, PortProxy.FromQueue, PortProxy.Bucket;
      assert PortProxy.PortOk(proxy.ports, proxy.log, i);
      PortProxy.RoutableFromQueue(proxy.ports, proxy.log, i, queue);
    }

    /** The oldest unread packet as the proxy sees it. */
    ghost function HeadEntry(s: State, mdValid: bool): PortProxy.Entry
      requires Shape(s) && Takeable(s)
      reads {}
    {
      PortProxy.Entry(queue, PortProxy.Skb(s.skb[Idx(s.n, s.done)].value, s.data[Idx(s.n, s.done)], 0), mdValid)
    }

    /** t7xx_cldma_rx_ring_init and t7xx_cldma_q_reset */
    constructor (size: RingSize, id: PortProxy.QueueId, prox: PortProxy.Proxy)
      requires PortProxy.FromQueue(prox.log, id) == []
      ensures n == size && queue == id && proxy == prox && Joined()
      ensures Valid() && View() == Init(size) && fresh(skb) && fresh(hwo) && fresh(data)
    {
      n, queue, proxy := size, id, prox;
      skb := new Option<nat>[size](i => Some(i));
      hwo := new bool[size](_ => true);
      data := new nat[size](_ => 0);
      trDone, rxRefill, hwNext, nextSkb := 0, 0, 0, size;
      done, refill, stream, failed := 0, 0, [], 0;
      new;
      assert skb[..] == Init(size).skb && hwo[..] == Init(size).hwo && data[..] == Init(size).data;
      InitInv(size);
    }

    /** The hardware writes packets while it owns descriptors. */
    method HwFill(packets: seq<nat>)
      requires Valid()
      modifies this`hwNext, this`stream, hwo, data
      ensures Valid() && old(stream) <= stream
      ensures done == old(done) && refill == old(refill) && failed == old(failed)
    {
      hide Inv, Filled;
      var i := 0;
      while i < |packets|
        invariant 0 <= i <= |packets| && Valid() && old(stream) <= stream
      {
        FilledInv(View(), packets[i]);
        FilledGrows(View(), packets[i]);
        HwFillOne(packets[i]);
        i := i + 1;
      }
    }

    method HwFillOne(packet: nat)
      requires Shaped()
      modifies this`hwNext, this`stream, hwo, data
      ensures Shaped() && View() == Filled(old(View()), packet)
    {
      hide Idx;
      ghost var s := View();
      if hwo[hwNext] {
        hwo[hwNext] := false;
        data[hwNext] := packet;
        assert hwo[..] == s.hwo[Idx(n, |stream|) := false];
        assert data[..] == s.data[Idx(n, |stream|) := packet];
        NextIdxOfPosition(n, |stream|);
        hwNext := NextIdx(n, hwNext);
        stream := stream + [packet];
      }
    }

    /** tr_done moves past a packet the receiver consumed. */
    method Advance()
      requires Shaped() && Takeable(View())
      modifies this`trDone, this`done, skb
      ensures Shaped() && View() == Taken(old(View()))
    {
      hide Idx;
      ghost var s := View();
      skb[trDone] := None;
      assert skb[..] == s.skb[Idx(n, done) := None];
      NextIdxOfPosition(n, done);
      trDone := NextIdx(n, trDone);
      done := done + 1;
    }

    /** t7xx_cldma_alloc_and_map_skb into the request at rx_refill, and its hand-over. */
    method RefillOne(gotSkb: bool) returns (ret: int)
      requires Shaped()
      modifies this`rxRefill, this`refill, this`nextSkb, this`failed, skb, hwo
      ensures Shaped() && View() == Refilled(old(View()), gotSkb)
      ensures ret == if gotSkb then 0 else -ENOMEM
    {
      hide Idx;
      ghost var s := View();
      if !gotSkb {
        failed := failed + 1;
        return -ENOMEM;
      }
      skb[rxRefill] := Some(nextSkb);
      hwo[rxRefill] := true;
      assert skb[..] == s.skb[Idx(n, refill) := Some(nextSkb)];
      assert hwo[..] == s.hwo[Idx(n, refill) := true];
      NextIdxOfPosition(n, refill);
      nextSkb := nextSkb + 1;
      rxRefill := NextIdx(n, rxRefill);
      refill := refill + 1;
      ret := 0;
    }

    /** The oldest unread packet is handed to the proxy. */
    method Dispatch(mdValid: bool) returns (ret: int)
      requires Shaped() && proxy.Valid() && Takeable(View())
      modifies proxy`ports, proxy`log
      ensures proxy.Valid() && ret in {0, -ENOBUFS, -EINVAL}
      ensures ret < 0 <==> PortProxy.Refuses(old(proxy.ports), HeadEntry(View(), mdValid))
      ensures ret == 0 ==> proxy.log == old(proxy.log) + [HeadEntry(View(), mdValid)]
      ensures ret == 0 ==> proxy.ports == PortProxy.Received(old(proxy.ports), HeadEntry(View(), mdValid))
      ensures ret < 0 ==> proxy.log == old(proxy.log) && proxy.ports == old(proxy.ports)
    {
      hide Idx, PortProxy.Refuses, PortProxy.Received, PortProxy.AllPortsOk, PortProxy.Bucket;
      var packet := PortProxy.Skb(skb[trDone].value, data[trDone], 0);
      var after;
      ret, after := proxy.RecvSkb(queue, packet, mdValid);
    }

    /** Past the packet the proxy consumed, and its replacement. */
    method TakeOver(gotSkb: bool) returns (ret: int)
      requires Shaped() && Takeable(View())
      modifies this`trDone, this`done, this`rxRefill, this`refill, this`nextSkb, this`failed, skb, hwo
      ensures Shaped() && View() == Consumed(old(View()), gotSkb)
      ensures ret == if gotSkb then 0 else -ENOMEM
    {
      hide Idx, Taken, Refilled;
      Advance();
      ret := RefillOne(gotSkb);
    }

    /** The part of a turn after the readiness test: dispatch, and on success take and
        refill. A refusal leaves the ring, the packet and the ports as they were. */
    method Deliver(turn: Turn) returns (ret: int, consumed: bool)
      requires Valid() && proxy.Valid() && Takeable(View()) && Joined()
      modifies this`trDone, this`done, this`rxRefill, this`refill, this`nextSkb, this`failed, skb, hwo,
               proxy`ports, proxy`log
      ensures Valid() && proxy.Valid() && Joined()
      ensures View() == if consumed then Consumed(old(View()), turn.gotSkb) else old(View())
      ensures !consumed <==> PortProxy.Refuses(old(proxy.ports), HeadEntry(old(View()), turn.mdValid))
      ensures consumed ==> ret == (if turn.gotSkb then 0 else -ENOMEM) && done == old(done) + 1
      ensures consumed ==> proxy.log == old(proxy.log) + [HeadEntry(old(View()), turn.mdValid)]
      ensures !consumed ==> ret in {-ENOBUFS, -EINVAL} && proxy.log == old(proxy.log) && proxy.ports == old(proxy.ports)
    {
      ghost var s := View();
      TakeableExact(s);
      ConsumedInv(s, turn.gotSkb);
      ConsumedKeeps(s, turn.gotSkb);
      hide Inv, Idx, Taken, Refilled, Consumed, Packets, PortProxy.FromQueue, PortProxy.Refuses, PortProxy.Received;
      hide PortProxy.AllPortsOk, PortProxy.Bucket;
      ghost var e := HeadEntry(s, turn.mdValid);
      ghost var log := proxy.log;
      ret := Dispatch(turn.mdValid);
      consumed := ret == 0;
      if consumed {
        PacketLogged(log, e, queue, stream, done);
        ret := TakeOver(turn.gotSkb);
      }
    }

    /** The oldest unread packet is there and its port refuses it. */
    ghost predicate Refused(turn: Turn)
      requires Shaped()
      reads this, skb, hwo, data, proxy`ports
    {
      Takeable(View()) && PortProxy.Refuses(proxy.ports, HeadEntry(View(), turn.mdValid))
    }

    /** t7xx_cldma_gpd_rx_from_q: whatever is refused, whichever refills fail and
        whatever readers and other queues do meanwhile, the packets consumed are the
        next ones the hardware wrote, once each and in order, and they are what the
        proxy has logged from this queue. */
    method GpdRxFromQ(budget: nat, turns: seq<Turn>)
        returns (ret: int, overBudget: bool, ghost used: nat, ghost ready: seq<bool>)
      requires Valid() && proxy.Valid() && Joined()
      requires forall t :: t in turns ==> OthersOnly(t)
      modifies this`trDone, this`done, this`rxRefill, this`refill, this`nextSkb, this`failed,
               this`hwNext, this`stream, skb, hwo, data, proxy`ports, proxy`log
      ensures Valid() && proxy.Valid() && Joined() && old(stream) <= stream
      ensures old(done) <= done <= |stream|
      ensures failed > old(failed) ==> ret == -ENOMEM && failed == old(failed) + 1
      ensures overBudget ==> ret == 0 && done - old(done) >= budget
      // it stops only when drained, out of link, over budget, short of memory or refused
      ensures used <= |turns| && (used == |turns| || ret < 0 || overBudget || done == |stream|)
      ensures ret < 0 && failed == old(failed) ==> 0 < used <= |turns|
      ensures ret < 0 && failed == old(failed) ==> (done == |stream| && !turns[used - 1].present) || Refused(turns[used - 1])
      // ready says of each turn whether it found a packet: one was consumed in each of
      // these, but for the last one's refusal; a turn without one ends the call if the
      // link is down, and then and only then with -ENODEV
      ensures |ready| == used && Trues(ready) == done - old(done) + if ret in {-ENOBUFS, -EINVAL} then 1 else 0
      ensures forall j :: 0 <= j < used - 1 && !ready[j] ==> turns[j].present && !turns[j].atGpd
      ensures ret == -ENODEV <==> used > 0 && !ready[used - 1] && !turns[used - 1].present
    {
      hide Inv, Consumed, Packets, Takeable, Idx, OthersOnly, Trues;
      hide PortProxy.AllPortsOk, PortProxy.Bucket, PortProxy.Refuses, PortProxy.RoutesTo, PortProxy.FromQueue;
      ret, overBudget, used, ready := 0, false, 0, [];
      TruesSnoc([], false);
      var count, polling, i := 0, 0, 0;
      ghost var done0 := done;
      while i < |turns|
        invariant 0 <= i == used <= |turns| && Valid() && proxy.Valid() && Joined() && old(stream) <= stream
        invariant done == done0 + count && failed == old(failed) && ret == 0 && !overBudget
        invariant |ready| == used && Trues(ready) == count
        invariant forall j :: 0 <= j < used && !ready[j] ==> turns[j].present && !turns[j].atGpd
      {
        var turn := turns[i];
        i := i + 1;
        used := used + 1;
        BeforeTurn(turn);
        var isReady := Ready();
        TakeableExact(View());
        TruesSnoc(ready, isReady);
        ready := ready + [isReady];
        if !isReady {
          if !turn.present {
            return -ENODEV, false, used, ready;
          }
          if turn.atGpd || polling >= HWO_POLL_LIMIT {
            return 0, false, used, ready;
          }
          polling := polling + 1;
        } else {
          polling := 0;
          var consumed;
          ConsumedKeeps(View(), turn.gotSkb);
          ret, consumed := Deliver(turn);
          if !consumed {
            return ret, false, used, ready;
          }
          if ret != 0 {
            return ret, false, used, ready;
          }
          count := count + 1;
          if !(count < budget || !turn.resched) {
            return 0, true, used, ready;
          }
        }
      }
    }

    /** The other queues' deliveries in a turn are not this queue's. */
    predicate OthersOnly(turn: Turn) {
      forall a :: a in turn.others && a.OtherRx? ==> a.queue != queue
    }

    /** Arrivals and the others' activity before a turn. */
    method BeforeTurn(turn: Turn)
      requires Valid() && proxy.Valid() && Joined() && OthersOnly(turn)
      modifies this`hwNext, this`stream, hwo, data, proxy`ports, proxy`log
      ensures Valid() && proxy.Valid() && Joined() && old(stream) <= stream
    {
      hide Inv, Packets, Idx, PortProxy.AllPortsOk, PortProxy.Bucket, PortProxy.FromQueue;
      HwFill(turn.arrivals);
      assert stream[..done] == old(stream)[..done];
      proxy.Others(turn.others, queue);
    }

    method Ready() returns (ready: bool)
      requires Shaped()
      ensures ready <==> Takeable(View())
    {
      ready := !(hwo[trDone] || skb[trDone].None?);
    }
  }

  function Trues(s: seq<bool>): nat {
    if s == [] then 0 else Trues(s[..|s| - 1]) + if s[|s| - 1] then 1 else 0
  }

  lemma TruesSnoc(s: seq<bool>, b: bool)
    ensures Trues([]) == 0 && Trues(s + [b]) == Trues(s) + if b then 1 else 0
  {
    assert (s + [b])[..|s|] == s;
  }

  lemma FilledGrows(s: State, packet: nat)
    requires Shape(s)
    ensures s.stream <= Filled(s, packet).stream
    ensures var t := Filled(s, packet); t.done == s.done && t.refill == s.refill && t.failed == s.failed
  {
  }

  lemma ConsumedKeeps(s: State, gotSkb: bool)
    requires Shape(s) && Takeable(s)
    ensures var t := Consumed(s, gotSkb);
            t.done == s.done + 1 && t.stream == s.stream && t.failed == s.failed + if gotSkb then 0 else 1
  {
  }
}
