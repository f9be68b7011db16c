/** Dispatch of control packets to ports (src/t7xx_port_proxy.c:157-177, 239-254,
    355-379, 414-484; the other ports' receivers in src/t7xx_port_wwan.c:191-205 and
    src/t7xx_port_trace.c:65-75). */
module PortProxy {
  import opened Errno

  const CH_ID_COUNT := 0x100
  const INVALID_SEQ_NUM := 0xffff
  const HEADER_SIZE := 16

  /** A packet in its buffer: identity, the status word of its header, and where its
      data starts. */
  datatype Skb = Skb(id: nat, status: nat, offset: nat)
  {
    function Channel(): nat { status % 0x1_0000 }
    function SeqNo(): nat { (status / 0x1_0000) % 0x8000 }
  }

  datatype Kind = Control | Wwan | Trace

  datatype Conf = Conf(rxCh: nat, pathId: nat, kind: Kind)
  {
    function ChId(): nat { rxCh % CH_ID_COUNT }
  }

  /** usable: a WWAN port is open, a trace port has its relay channel. got lists
      every packet the port accepted. */
  datatype Port = Port(conf: Conf, rxList: seq<Skb>, rxLengthTh: nat, usable: bool, rxSeq: nat, got: seq<Skb>)

  // ----- lookup -----

  predicate Matches(conf: Conf, pathId: nat, channel: nat) {
    conf.pathId == pathId && conf.rxCh == channel
  }

  /** Reference: the first port of the table that matches, |ports| if none. */
  function LinearScan(ports: seq<Port>, pathId: nat, channel: nat): (i: nat)
    ensures i <= |ports|
    ensures i < |ports| ==> Matches(ports[i].conf, pathId, channel)
    ensures forall j :: 0 <= j < i ==> !Matches(ports[j].conf, pathId, channel)
  {
    if ports == [] then 0
    else
      var k := |ports| - 1;
      var i := LinearScan(ports[..k], pathId, channel);
      if i < k then i else if Matches(ports[k].conf, pathId, channel) then k else |ports|
  }

  /** The indices of the ports with a channel id, in table order. */
  function Bucket(ports: seq<Port>, chId: nat): (r: seq<nat>)
    ensures forall j :: 0 <= j < |r| ==> r[j] < |ports| && ports[r[j]].conf.ChId() == chId
    ensures forall j, k :: 0 <= j < k < |r| ==> r[j] < r[k]
    ensures forall i :: 0 <= i < |ports| && ports[i].conf.ChId() == chId ==> i in r
  {
    if ports == [] then []
    else
      var k := |ports| - 1;
      Bucket(ports[..k], chId) + if ports[k].conf.ChId() == chId then [k] else []
  }

  lemma BucketSnoc(ports: seq<Port>, k: nat, chId: nat)
    requires k < |ports|
    ensures Bucket(ports[..0], chId) == []
    ensures Bucket(ports[..k + 1], chId) == Bucket(ports[..k], chId) + if ports[k].conf.ChId() == chId then [k] else []
  {
    assert ports[..k + 1][..k] == ports[..k];
  }

  /** The port index list of a bucket depends on the configuration only. */
  lemma {:induction false} BucketSameConf(a: seq<Port>, b: seq<Port>, chId: nat)
    requires |a| == |b| && forall i :: 0 <= i < |a| ==> a[i].conf == b[i].conf
    ensures Bucket(a, chId) == Bucket(b, chId)
  {
    if a != [] {
      BucketSameConf(a[..|a| - 1], b[..|b| - 1], chId);
    }
  }

  lemma {:induction false} ScanSameConf(a: seq<Port>, b: seq<Port>, pathId: nat, channel: nat)
    requires |a| == |b| && forall i :: 0 <= i < |a| ==> a[i].conf == b[i].conf
    ensures LinearScan(a, pathId, channel) == LinearScan(b, pathId, channel)
  {
    if a != [] {
      ScanSameConf(a[..|a| - 1], b[..|b| - 1], pathId, channel);
    }
  }

  // ----- sequence numbers -----

  /** t7xx_port_next_rx_seq_num: the result does not depend on the state. */
  function NextSeq(skb: Skb): nat {
    (skb.SeqNo() + 1) % 0x8000
  }

  /** The status word of a header, and that it reads back. */
  function StatusWord(channel: nat, seqNo: nat, asserted: bool): nat {
    channel + seqNo * 0x1_0000 + if asserted then 0x8000_0000 else 0
  }

  lemma StatusFields(channel: nat, seqNo: nat, asserted: bool)
    requires channel < 0x1_0000 && seqNo < 0x8000
    ensures var s := Skb(0, StatusWord(channel, seqNo, asserted), 0);
            s.Channel() == channel && s.SeqNo() == seqNo && NextSeq(s) == if seqNo == 0x7fff then 0 else seqNo + 1
  {
    var w := StatusWord(channel, seqNo, asserted);
    assert w / 0x1_0000 == seqNo + 0x8000 * (if asserted then 1 else 0);
  }

  // ----- one port receives -----

  datatype Verdict = Taken(port: Port) | Refused(err: int)

  /** The ports' recv_skb operations; skb's header has been pulled. */
  function PortRecv(p: Port, skb: Skb): (v: Verdict)
    ensures v.Taken? ==> v.port.conf == p.conf && v.port.rxLengthTh == p.rxLengthTh && v.port.rxSeq == p.rxSeq
    ensures v.Refused? ==> v.err == -ENOBUFS || v.err == -EINVAL
    ensures p.conf.kind.Control? ==> (v.Refused? <==> |p.rxList| >= p.rxLengthTh)
    ensures p.conf.kind.Control? && v.Taken? ==> v.port.rxList == p.rxList + [skb] && v.port.got == p.got + [skb]
  {
    match p.conf.kind
    case Control =>
      if |p.rxList| >= p.rxLengthTh then Refused(-ENOBUFS)
      else Taken(p.(rxList := p.rxList + [skb], got := p.got + [skb]))
    case Wwan => Taken(if p.usable then p.(got := p.got + [skb]) else p)
    case Trace => if p.usable then Taken(p.(got := p.got + [skb])) else Refused(-EINVAL)
  }

  // ----- the log of consumed packets -----

  /** struct cldma_queue as the proxy sees it: its interface and number. */
  datatype QueueId = QueueId(hif: nat, index: nat)

  /** A consumed packet: the queue it came from and whether the modem state was
      valid then. */
  datatype Entry = Entry(queue: QueueId, skb: Skb, mdValid: bool)

  function Pulled(skb: Skb): Skb {
    skb.(offset := skb.offset + HEADER_SIZE)
  }

  function RoutesTo(ports: seq<Port>, e: Entry): (i: nat)
    ensures i <= |ports|
  {
    if e.mdValid then LinearScan(ports, e.queue.hif, e.skb.Channel()) else |ports|
  }

  /** The port the packet goes to will not take it now. */
  predicate Refuses(ports: seq<Port>, e: Entry) {
    var i := RoutesTo(ports, e);
    i < |ports| && PortRecv(ports[i], Pulled(e.skb)).Refused?
  }

  /** The packets of the log that belong to port i, as the port sees them. */
  function Routable(ports: seq<Port>, log: seq<Entry>, i: nat): seq<Skb> {
    if log == [] then []
    else
      var e := log[|log| - 1];
      Routable(ports, log[..|log| - 1], i) + if RoutesTo(ports, e) == i then [Pulled(e.skb)] else []
  }

  lemma RoutableSnoc(ports: seq<Port>, log: seq<Entry>, e: Entry, i: nat)
    ensures Routable(ports, log + [e], i) ==
            Routable(ports, log, i) + if RoutesTo(ports, e) == i then [Pulled(e.skb)] else []
  {
    assert (log + [e])[..|log|] == log;
  }

  lemma {:induction false} RoutableSameConf(a: seq<Port>, b: seq<Port>, log: seq<Entry>, i: nat)
    requires |a| == |b| && forall k :: 0 <= k < |a| ==> a[k].conf == b[k].conf
    ensures Routable(a, log, i) == Routable(b, log, i)
  {
    if log != [] {
      var e := log[|log| - 1];
      ScanSameConf(a, b, e.queue.hif, e.skb.Channel());
      RoutableSameConf(a, b, log[..|log| - 1], i);
    }
  }

  /** The entries of the log that came from one queue. */
  function FromQueue(log: seq<Entry>, queue: QueueId): seq<Entry> {
    if log == [] then []
    else
      var e := log[|log| - 1];
      FromQueue(log[..|log| - 1], queue) + if e.queue == queue then [e] else []
  }

  lemma FromQueueSnoc(log: seq<Entry>, e: Entry, queue: QueueId)
    ensures FromQueue(log + [e], queue) == FromQueue(log, queue) + if e.queue == queue then [e] else []
    ensures FromQueue([], queue) == []
  {
    assert (log + [e])[..|log|] == log;
  }

  /** A port whose packets all come from one queue gets its share of that queue's
      packets, whatever else is dispatched in between. */
  lemma {:induction false} RoutableFromQueue(ports: seq<Port>, log: seq<Entry>, i: nat, queue: QueueId)
    requires forall e :: e in log && RoutesTo(ports, e) == i ==> e.queue == queue
    ensures Routable(ports, log, i) == Routable(ports, FromQueue(log, queue), i)
  {
    hide RoutesTo;
    if log != [] {
      var k := |log| - 1;
      var e := log[k];
      assert log == log[..k] + [e] && e in log;
      RoutableFromQueue(ports, log[..k], i, queue);
      FromQueueSnoc(log[..k], e, queue);
      RoutableSnoc(ports, log[..k], e, i);
      RoutableSnoc(ports, FromQueue(log[..k], queue), e, i);
      hide FromQueue, Routable;
      var mine := FromQueue(log[..k], queue);
      assert e.queue != queue ==> mine + [] == mine;
      assert RoutesTo(ports, e) != i ==> Routable(ports, mine, i) + [] == Routable(ports, mine, i);
    }
  }

  /** The sequence number a port expects after a list of packets. */
  function SeqAfter(got: seq<Skb>): nat {
    if got == [] then INVALID_SEQ_NUM else NextSeq(got[|got| - 1])
  }

  predicate SameConf(a: seq<Port>, b: seq<Port>) {
    |a| == |b| && forall i :: 0 <= i < |a| ==> a[i].conf == b[i].conf
  }

  /** A control port has accepted exactly its routable packets, in order; its queue
      is the unread end of them, within its limit; its sequence number is that of
      the last one plus one. */
  ghost predicate PortOk(ports: seq<Port>, log: seq<Entry>, i: nat)
    requires i < |ports|
  {
    var p := ports[i];
    p.conf.kind.Control? ==>
      && p.got == Routable(ports, log, i)
      && |p.rxList| <= p.rxLengthTh && |p.rxList| <= |p.got|
      && p.rxList == p.got[|p.got| - |p.rxList|..]
      && p.rxSeq == SeqAfter(p.got)
  }

  ghost predicate AllPortsOk(ports: seq<Port>, log: seq<Entry>) {
    forall i :: 0 <= i < |ports| ==> PortOk(ports, log, i)
  }

  /** The table after consuming a packet that nobody refuses. */
  function Received(ports: seq<Port>, e: Entry): (r: seq<Port>)
    ensures SameConf(ports, r)
  {
    var i := RoutesTo(ports, e);
    if i == |ports| then ports
    else
      match PortRecv(ports[i], Pulled(e.skb))
      case Taken(port) => ports[i := port.(rxSeq := NextSeq(e.skb))]
      case Refused(_) => ports
  }

  lemma PortOkStep(ports: seq<Port>, after: seq<Port>, log: seq<Entry>, e: Entry, i: nat)
    requires SameConf(ports, after) && i < |ports| && PortOk(ports, log, i)
    requires i != RoutesTo(ports, e) ==> after[i] == ports[i]
    requires i == RoutesTo(ports, e) ==>
               var v := PortRecv(ports[i], Pulled(e.skb));
               v.Taken? && after[i] == v.port.(rxSeq := NextSeq(e.skb))
    ensures PortOk(after, log + [e], i)
  {
    hide LinearScan, RoutesTo, Routable;
    RoutableSnoc(ports, log, e, i);
    RoutableSameConf(ports, after, log + [e], i);
    if ports[i].conf.kind.Control? && i == RoutesTo(ports, e) {
      ControlTakes(ports[i], e.skb);
    }
    hide PortRecv, Pulled, NextSeq, Skb.Channel, Skb.SeqNo;
  }

  lemma ControlTakes(p: Port, skb: Skb)
    requires p.conf.kind.Control? && PortRecv(p, Pulled(skb)).Taken?
    ensures PortRecv(p, Pulled(skb)).port ==
            p.(rxList := p.rxList + [Pulled(skb)], got := p.got + [Pulled(skb)])
    ensures |p.rxList| < p.rxLengthTh
    ensures SeqAfter(p.got + [Pulled(skb)]) == NextSeq(skb)
  {
  }

  /** What others do to the ports while a queue is being served: a reader takes a
      packet, a port is opened or closed, another queue delivers. */
  datatype PortAct =
    | Drain(i: nat)
    | Use(i: nat, usable: bool)
    | OtherRx(queue: QueueId, skb: Skb, mdValid: bool)

  class Proxy {
    var ports: seq<Port>
    var rxChPorts: seq<seq<nat>>
    ghost var log: seq<Entry>

    ghost predicate MappingOk()
      reads this
    {
      && |rxChPorts| == CH_ID_COUNT
      && forall b :: 0 <= b < CH_ID_COUNT ==> rxChPorts[b] == Bucket(ports, b)
    }

    ghost predicate Valid()
      reads this
    {
      MappingOk() && AllPortsOk(ports, log)
    }

    /** t7xx_proxy_init_all_ports on a port table */
    constructor (confs: seq<Conf>, limits: seq<nat>)
      requires |limits| == |confs|
      ensures Valid() && log == [] && |ports| == |confs|
      ensures forall i :: 0 <= i < |confs| ==> ports[i] == Port(confs[i], [], limits[i], false, INVALID_SEQ_NUM, [])
    {
      ports := seq(|confs|, i requires 0 <= i < |confs| => Port(confs[i], [], limits[i], false, INVALID_SEQ_NUM, []));
      rxChPorts := [];
      log := [];
      new;
      SetupChMapping();
    }

    /** t7xx_proxy_setup_ch_mapping */
    method SetupChMapping()
      modifies this`rxChPorts
      ensures MappingOk()
    {
      hide Bucket;
      rxChPorts := seq(CH_ID_COUNT, _ => []);
      if ports != [] {
        forall b | 0 <= b < CH_ID_COUNT ensures Bucket(ports[..0], b) == [] {
          BucketSnoc(ports, 0, b);
        }
      } else {
        EmptyBuckets();
        assert ports[..0] == [];
      }
      for i := 0 to |ports|
        invariant |rxChPorts| == CH_ID_COUNT
        invariant forall b :: 0 <= b < CH_ID_COUNT ==> rxChPorts[b] == Bucket(ports[..i], b)
      {
        forall b | 0 <= b < CH_ID_COUNT
          ensures Bucket(ports[..i + 1], b) == Bucket(ports[..i], b) + if ports[i].conf.ChId() == b then [i] else []
        {
          BucketSnoc(ports, i, b);
        }
        var chId := ports[i].conf.ChId();
        rxChPorts := rxChPorts[chId := rxChPorts[chId] + [i]];
      }
      assert ports[..|ports|] == ports;
    }

    /** t7xx_port_proxy_find_port: the bucket search finds what a scan of the whole
        table would. */
    method FindPort(pathId: nat, channel: nat) returns (i: nat)
      requires MappingOk()
      ensures i == LinearScan(ports, pathId, channel)
    {
      var chId := channel % CH_ID_COUNT;
      var list := rxChPorts[chId];
      var j := 0;
      while j < |list|
        invariant 0 <= j <= |list|
        invariant forall k :: 0 <= k < j ==> !Matches(ports[list[k]].conf, pathId, channel)
      {
        if Matches(ports[list[j]].conf, pathId, channel) {
          i := list[j];
          FirstInBucket(ports, list, j, pathId, channel);
          return;
        }
        j := j + 1;
      }
      i := |ports|;
      FirstInBucket(ports, list, |list|, pathId, channel);
    }

    /** t7xx_port_proxy_recv_skb. A refusal changes nothing, neither in the port nor
        in the packet, and the packet is not logged as consumed. */
    method RecvSkb(queue: QueueId, skb: Skb, mdValid: bool) returns (ret: int, after: Skb)
      requires Valid()
      modifies this`ports, this`log
      ensures Valid() && SameConf(old(ports), ports)
      ensures ret <= 0
      ensures ret == 0 ==> log == old(log) + [Entry(queue, skb, mdValid)]
      ensures ret == 0 ==> ports == Received(old(ports), Entry(queue, skb, mdValid))
      ensures ret < 0 ==> log == old(log) && ports == old(ports) && after == skb
      ensures ret < 0 <==> Refuses(old(ports), Entry(queue, skb, mdValid))
      ensures ret in {0, -ENOBUFS, -EINVAL}
      // nobody to deliver to: dropped
      ensures !mdValid || LinearScan(old(ports), queue.hif, skb.status % 0x1_0000) == |ports| ==>
                ret == 0 && ports == old(ports)
      // otherwise the port decides, and gets the packet behind its header
      ensures var i := LinearScan(old(ports), queue.hif, skb.status % 0x1_0000);
              mdValid && i < |ports| ==>
                var p := old(ports)[i];
                var moved := Skb(skb.id, skb.status, skb.offset + 16);
                var next := (skb.status / 0x1_0000 % 0x8000 + 1) % 0x8000;
                && ret == (if p.conf.kind.Control? && |p.rxList| >= p.rxLengthTh then -ENOBUFS
                           else if p.conf.kind.Trace? && !p.usable then -EINVAL else 0)
                && (ret == 0 ==>
                      && ports[i].rxSeq == next
                      && ports[i].rxList == p.rxList + (if p.conf.kind.Control? then [moved] else [])
                      && ports[i].got == p.got + (if p.conf.kind.Control? || p.usable then [moved] else [])
                      && forall k :: 0 <= k < |ports| && k != i ==> ports[k] == old(ports)[k])
    {
      hide Routable, Bucket, PortOk;
      ghost var e := Entry(queue, skb, mdValid);
      after := skb;
      var channel := skb.Channel();
      var i := |ports|;
      if mdValid {
        i := FindPort(queue.hif, channel);
      }
      if i == |ports| {
        // dropped: invalid modem state or no such port
        Dispatched(ports, ports, log, e);
        log := log + [e];
        return 0, after;
      }
      var seqNum := NextSeq(skb);
      after := after.(offset := after.offset + HEADER_SIZE);
      var verdict := PortRecv(ports[i], after);
      match verdict {
        case Refused(err) =>
          after := after.(offset := after.offset - HEADER_SIZE);
          return err, after;
        case Taken(port) =>
          ghost var was := ports;
          ports := ports[i := port];
          ports := ports[i := ports[i].(rxSeq := seqNum)];
          ret := 0;
          Dispatched(was, ports, log, e);
          SameBuckets(was, ports);
          log := log + [e];
      }
    }

    /** Activity of others; what one queue has delivered is not affected by it. */
    method Others(acts: seq<PortAct>, ghost own: QueueId)
      requires Valid() && forall a :: a in acts && a.OtherRx? ==> a.queue != own
      modifies this`ports, this`log
      ensures Valid() && SameConf(old(ports), ports) && FromQueue(log, own) == FromQueue(old(log), own)
    {
      hide PortOk, Bucket, FromQueue, Refuses, Received, PortRecv;
      var k := 0;
      while k < |acts|
        invariant 0 <= k <= |acts| && Valid() && SameConf(old(ports), ports)
        invariant FromQueue(log, own) == FromQueue(old(log), own)
      {
        match acts[k] {
          case Drain(i) =>
            if i < |ports| && ports[i].conf.kind.Control? && ports[i].rxList != [] {
              var _ := Dequeue(i);
            }
          case Use(i, usable) =>
            if i < |ports| {
              SetUsable(i, usable);
            }
          case OtherRx(queue, skb, mdValid) =>
            assert acts[k] in acts;
            FromQueueSnoc(log, Entry(queue, skb, mdValid), own);
            var _, _ := RecvSkb(queue, skb, mdValid);
        }
        k := k + 1;
      }
    }

    /** The reader thread of a control port takes the oldest packet. */
    method Dequeue(i: nat) returns (skb: Skb)
      requires Valid() && i < |ports| && ports[i].conf.kind.Control? && ports[i].rxList != []
      modifies this`ports
      ensures Valid() && SameConf(old(ports), ports)
      ensures skb == old(ports)[i].rxList[0]
      ensures ports == old(ports)[i := old(ports)[i].(rxList := old(ports)[i].rxList[1..])]
    {
      hide Routable, Bucket;
      ghost var was := ports;
      skb := ports[i].rxList[0];
      ports := ports[i := ports[i].(rxList := ports[i].rxList[1..])];
      SameBuckets(was, ports);
      forall k | 0 <= k < |ports| ensures PortOk(ports, log, k) {
        assert PortOk(was, log, k);
        RoutableSameConf(was, ports, log, k);
      }
    }

    /** A WWAN port is opened or closed, a trace channel appears. */
    method SetUsable(i: nat, usable: bool)
      requires Valid() && i < |ports|
      modifies this`ports
      ensures Valid() && ports == old(ports)[i := old(ports)[i].(usable := usable)]
    {
      hide Routable, Bucket;
      ghost var was := ports;
      ports := ports[i := ports[i].(usable := usable)];
      SameBuckets(was, ports);
      forall k | 0 <= k < |ports| ensures PortOk(ports, log, k) {
        assert PortOk(was, log, k);
        RoutableSameConf(was, ports, log, k);
      }
    }
  }

  lemma EmptyBuckets()
    ensures forall b :: Bucket([], b) == []
  {
  }

  lemma SameBuckets(a: seq<Port>, b: seq<Port>)
    requires SameConf(a, b)
    ensures forall c :: Bucket(a, c) == Bucket(b, c)
  {
    forall c ensures Bucket(a, c) == Bucket(b, c) {
      BucketSameConf(a, b, c);
    }
  }

  /** Scanning the bucket of a channel in order meets the table's first match first. */
  lemma FirstInBucket(ports: seq<Port>, list: seq<nat>, j: nat, pathId: nat, channel: nat)
    requires list == Bucket(ports, channel % CH_ID_COUNT) && j <= |list|
    requires forall k :: 0 <= k < j ==> !Matches(ports[list[k]].conf, pathId, channel)
    requires j < |list| ==> Matches(ports[list[j]].conf, pathId, channel)
    ensures LinearScan(ports, pathId, channel) == if j < |list| then list[j] else |ports|
  {
    var i := LinearScan(ports, pathId, channel);
    if i < |ports| {
      assert i in list;
      var m :| 0 <= m < |list| && list[m] == i;
      assert m >= j;
    }
  }

  lemma Dispatched(ports: seq<Port>, after: seq<Port>, log: seq<Entry>, e: Entry)
    requires AllPortsOk(ports, log) && SameConf(ports, after)
    requires forall i :: 0 <= i < |ports| && i != RoutesTo(ports, e) ==> after[i] == ports[i]
    requires var r := RoutesTo(ports, e);
             r < |ports| ==>
               var v := PortRecv(ports[r], Pulled(e.skb));
               v.Taken? && after[r] == v.port.(rxSeq := NextSeq(e.skb))
    ensures AllPortsOk(after, log + [e])
  {
    hide PortOk;
    forall i | 0 <= i < |after| ensures PortOk(after, log + [e], i) {
      PortOkStep(ports, after, log, e, i);
    }
  }
}
