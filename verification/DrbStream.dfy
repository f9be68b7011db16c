/** Transmit descriptors (DRBs): their layout, the frame of descriptors a packet
    occupies, and what reading and releasing them one by one does
    (src/t7xx_hif_dpmaif_tx.c:80-132, 192-240; layout in src/t7xx_hif_dpmaif_tx.h). */
module DrbStream {
  import opened Ring

  const DTYP_PD := 0
  const DTYP_MSG := 1

  datatype Option<T> = None | Some(value: T)

  /** A socket buffer: linear part and fragments, addressed to a network interface. */
  datatype Buf = Buf(id: nat, netif: nat, len: nat, headLen: nat, fragLens: seq<nat>)
  {
    function PayloadCnt(): nat { |fragLens| + 1 }

    /** t7xx_skb_drb_cnt */
    function DrbCnt(): nat { |fragLens| + 2 }

    function PartLen(k: nat): nat
      requires k < PayloadCnt()
    {
      if k == 0 then headLen else fragLens[k - 1]
    }
  }

  /** A buffer in the ring with its DMA addresses; hi is the word the message
      descriptor leaves as it found it. */
  datatype Sent = Sent(buf: Buf, addrs: seq<nat>, hi: nat)
  {
    predicate Ok() { |addrs| == buf.PayloadCnt() }
  }

  /** struct dpmaif_drb next to its struct dpmaif_drb_skb. */
  datatype Slot = Slot(
    header: nat, lo: nat, hi: nat,
    skb: Option<nat>, busAddr: nat, dataLen: nat, isMsg: bool, isFrag: bool, isLast: bool)
  {
    function DType(): nat { header % 4 }
    predicate Cont() { (header / 4) % 2 == 1 }
    function DataLen(): nat { header / 0x1_0000 }
    function Channel(): nat { (lo / 0x1_0000) % 0x100 }
    function Address(): nat { hi * 0x1_0000_0000 + lo }
    // the rest of the message word
    function CountL(): nat { lo % 0x1_0000 }
    function NetworkType(): nat { (lo / 0x100_0000) % 8 }
    predicate IpCheck() { (lo / 0x1000_0000) % 2 == 1 }
    predicate L4Check() { (lo / 0x2000_0000) % 2 == 1 }

    /** The header test of the release loop. */
    predicate EndsPacket() { DType() == DTYP_PD && !Cont() }
  }

  const BlankSlot := Slot(0, 0, 0, None, 0, 0, false, false, false)

  /** t7xx_setup_msg_drb and t7xx_record_drb_skb */
  function MsgSlot(b: Buf, hi: nat): Slot {
    Slot(DTYP_MSG + 4 + b.len % 0x1_0000 * 0x1_0000, b.netif % 0x100 * 0x1_0000 + 0x2000_0000, hi,
         Some(b.id), 0, 0, true, false, false)
  }

  /** t7xx_setup_payload_drb and t7xx_record_drb_skb */
  function PdSlot(b: Buf, k: nat, addr: nat): Slot
    requires k < b.PayloadCnt()
  {
    var last := k == b.PayloadCnt() - 1;
    Slot(DTYP_PD + (if last then 0 else 4) + b.PartLen(k) % 0x1_0000 * 0x1_0000,
         addr % 0x1_0000_0000, addr / 0x1_0000_0000,
         Some(b.id), addr, b.PartLen(k), false, k > 0, last)
  }

  /** The first k payload descriptors. */
  function Payload(x: Sent, k: nat): (r: seq<Slot>)
    requires x.Ok() && k <= x.buf.PayloadCnt()
    ensures |r| == k
  {
    seq(k, i requires 0 <= i < x.buf.PayloadCnt() => PdSlot(x.buf, i, x.addrs[i]))
  }

  function Frame(x: Sent): (r: seq<Slot>)
    requires x.Ok()
    ensures |r| == x.buf.DrbCnt()
  {
    [MsgSlot(x.buf, x.hi)] + Payload(x, x.buf.PayloadCnt())
  }

  predicate AllOk(sent: seq<Sent>) {
    forall i :: 0 <= i < |sent| ==> sent[i].Ok()
  }

  /** All descriptors ever written for a list of packets, in order. */
  function Stream(sent: seq<Sent>): seq<Slot>
    requires AllOk(sent)
  {
    if sent == [] then []
    else Stream(sent[..|sent| - 1]) + Frame(sent[|sent| - 1])
  }

  lemma StreamSnoc(sent: seq<Sent>, x: Sent)
    requires AllOk(sent) && x.Ok()
    ensures AllOk(sent + [x]) && Stream(sent + [x]) == Stream(sent) + Frame(x) && Stream([]) == []
  {
    assert (sent + [x])[..|sent|] == sent;
  }

  lemma {:induction false} StreamSplit(a: seq<Sent>, b: seq<Sent>)
    requires AllOk(a) && AllOk(b)
    ensures AllOk(a + b) && Stream(a + b) == Stream(a) + Stream(b)
  {
    hide Frame;
    if b == [] {
      assert a + b == a;
    } else {
      var k := |b| - 1;
      StreamSplit(a, b[..k]);
      StreamSnoc(a + b[..k], b[k]);
      StreamSnoc(b[..k], b[k]);
      assert a + b == (a + b[..k]) + [b[k]] && b == b[..k] + [b[k]];
      hide Stream;
      assert Stream(a) + (Stream(b[..k]) + Frame(b[k])) == (Stream(a) + Stream(b[..k])) + Frame(b[k]);
    }
  }

  /** From a packet boundary on, the stream is the stream of the remaining packets. */
  lemma StreamSuffix(sent: seq<Sent>, k: nat)
    requires AllOk(sent) && k <= |sent|
    ensures AllOk(sent[..k]) && AllOk(sent[k..])
    ensures |Stream(sent[..k])| <= |Stream(sent)|
    ensures Stream(sent)[|Stream(sent[..k])|..] == Stream(sent[k..])
  {
    hide Stream, Frame;
    StreamSplit(sent[..k], sent[k..]);
    assert sent == sent[..k] + sent[k..];
  }

  // ----- the software record agrees with the hardware header -----

  ghost predicate WellMarked(s: Slot) {
    && (s.isLast <==> s.EndsPacket())
    && (s.isLast <==> !s.Cont())
    && (s.isMsg <==> s.DType() == DTYP_MSG)
    && (s.DType() == DTYP_MSG || s.DType() == DTYP_PD)
    && s.skb.Some?
  }

  lemma HeaderFields(cont: bool, dtype: nat, len: nat)
    requires dtype < 4
    ensures var h := dtype + (if cont then 4 else 0) + len % 0x1_0000 * 0x1_0000;
            h % 4 == dtype && ((h / 4) % 2 == 1 <==> cont) && h / 0x1_0000 == len % 0x1_0000
  {
    var c := if cont then 1 else 0;
    var h := dtype + 4 * c + len % 0x1_0000 * 0x1_0000;
    assert h == dtype + 4 * (c + 2 * (len % 0x1_0000 * 0x2000));
    assert h / 4 == c + 2 * (len % 0x1_0000 * 0x2000);
    assert h == (dtype + 4 * c) + 0x1_0000 * (len % 0x1_0000);
  }

  /** What descriptor i of a packet's frame says, field by field: the message first,
      then the parts in order; CONT everywhere but on the last. */
  ghost predicate Describes(s: Slot, x: Sent, i: nat)
    requires x.Ok() && i < x.buf.DrbCnt()
  {
    && s.skb == Some(x.buf.id)
    && (s.Cont() <==> i < x.buf.DrbCnt() - 1)
    && (s.isLast <==> i == x.buf.DrbCnt() - 1)
    && (s.isMsg <==> i == 0) && (s.isFrag <==> i >= 2)
    && if i == 0 then
         && s.DType() == DTYP_MSG && s.DataLen() == x.buf.len % 0x1_0000
         && s.Channel() == x.buf.netif % 0x100 && s.L4Check() && !s.IpCheck()
         && s.CountL() == 0 && s.NetworkType() == 0 && s.hi == x.hi
         && s.busAddr == 0 && s.dataLen == 0
       else
         && s.DType() == DTYP_PD && s.DataLen() == x.buf.PartLen(i - 1) % 0x1_0000
         && s.Address() == x.addrs[i - 1] && s.busAddr == x.addrs[i - 1]
         && s.dataLen == x.buf.PartLen(i - 1)
  }

  lemma MsgWord(netif: nat)
    requires netif < 0x100
    ensures var w := netif * 0x1_0000 + 0x2000_0000;
            && w % 0x1_0000 == 0 && (w / 0x1_0000) % 0x100 == netif && (w / 0x100_0000) % 8 == 0
            && (w / 0x1000_0000) % 2 == 0 && (w / 0x2000_0000) % 2 == 1
  {
    var w := netif * 0x1_0000 + 0x2000_0000;
    assert w == 0x1_0000 * (netif + 0x2000);
    assert w / 0x1_0000 == netif + 0x2000;
    assert w / 0x100_0000 == 0x20;
    assert w / 0x1000_0000 == 2 && w / 0x2000_0000 == 1;
  }

  /** A frame is one message descriptor, then one payload descriptor per part, with
      CONT on all but the last, which alone carries is_last. */
  lemma FrameShape(x: Sent, i: nat)
    requires x.Ok() && i < x.buf.DrbCnt()
    ensures Describes(Frame(x)[i], x, i) && WellMarked(Frame(x)[i])
  {
    if i == 0 {
      HeaderFields(true, DTYP_MSG, x.buf.len);
      MsgWord(x.buf.netif % 0x100);
    } else {
      HeaderFields(i - 1 != x.buf.PayloadCnt() - 1, DTYP_PD, x.buf.PartLen(i - 1));
    }
  }

  /** Every position of the stream is one descriptor of one packet's frame. */
  lemma {:induction false} StreamAt(sent: seq<Sent>, c: nat) returns (k: nat, i: nat)
    requires AllOk(sent) && c < |Stream(sent)|
    ensures k < |sent| && i < sent[k].buf.DrbCnt()
    ensures AllOk(sent[..k]) && c == |Stream(sent[..k])| + i && Stream(sent)[c] == Frame(sent[k])[i]
  {
    hide Frame;
    var j := |sent| - 1;
    var before := Stream(sent[..j]);
    if c < |before| {
      k, i := StreamAt(sent[..j], c);
      assert sent[..j][..k] == sent[..k];
    } else {
      k, i := j, c - |before|;
    }
  }

  lemma {:induction false} StreamWellMarked(sent: seq<Sent>, c: nat)
    requires AllOk(sent) && c < |Stream(sent)|
    ensures WellMarked(Stream(sent)[c])
  {
    var k := |sent| - 1;
    var before := Stream(sent[..k]);
    if c < |before| {
      StreamWellMarked(sent[..k], c);
    } else {
      FrameShape(sent[k], c - |before|);
    }
  }

  // ----- which buffers end where -----

  predicate EndsOwned(s: Slot) {
    s.isLast && s.skb.Some?
  }

  /** The buffers recorded by last-payload slots, in order. */
  function LastIds(slots: seq<Slot>): seq<nat> {
    if slots == [] then []
    else
      var s := slots[|slots| - 1];
      LastIds(slots[..|slots| - 1]) + if EndsOwned(s) then [s.skb.value] else []
  }

  lemma {:induction false} LastIdsSplit(a: seq<Slot>, b: seq<Slot>)
    ensures LastIds(a + b) == LastIds(a) + LastIds(b)
  {
    if b == [] {
      assert a + b == a;
    } else {
      LastIdsSplit(a, b[..|b| - 1]);
      assert (a + b)[..|a + b| - 1] == a + b[..|b| - 1];
    }
  }

  lemma {:induction false} LastIdsNone(slots: seq<Slot>)
    requires forall i :: 0 <= i < |slots| ==> !EndsOwned(slots[i])
    ensures LastIds(slots) == []
  {
    if slots != [] {
      LastIdsNone(slots[..|slots| - 1]);
    }
  }

  lemma LastIdsSnoc(slots: seq<Slot>, s: Slot)
    ensures LastIds(slots + [s]) == LastIds(slots) + if EndsOwned(s) then [s.skb.value] else []
    ensures LastIds([]) == []
  {
    assert (slots + [s])[..|slots|] == slots;
  }

  function Ids(sent: seq<Sent>): (r: seq<nat>)
    ensures |r| == |sent|
  {
    seq(|sent|, i requires 0 <= i < |sent| => sent[i].buf.id)
  }

  lemma FrameLastIds(x: Sent)
    requires x.Ok()
    ensures LastIds(Frame(x)) == [x.buf.id]
  {
    var f := Frame(x);
    var k := |f| - 1;
    forall i | 0 <= i < k ensures !EndsOwned(f[..k][i]) {
      FrameShape(x, i);
    }
    LastIdsNone(f[..k]);
    FrameShape(x, k);
    assert f == f[..k] + [f[k]];
    LastIdsSnoc(f[..k], f[k]);
  }

  /** Each packet is owned by exactly one slot of its frame: reading the owners off
      the descriptors gives the packets in the order they were sent. */
  lemma {:induction false} StreamLastIds(sent: seq<Sent>)
    requires AllOk(sent)
    ensures LastIds(Stream(sent)) == Ids(sent)
  {
    hide LastIds, Frame;
    LastIdsSnoc([], BlankSlot);
    if sent != [] {
      var k := |sent| - 1;
      StreamLastIds(sent[..k]);
      LastIdsSplit(Stream(sent[..k]), Frame(sent[k]));
      FrameLastIds(sent[k]);
      assert Ids(sent) == Ids(sent[..k]) + [sent[k].buf.id];
    }
  }

  // ----- reading the descriptors back -----

  /** A packet as the descriptors describe it: interface, length, parts. */
  datatype Desc = Desc(netif: nat, len: nat, parts: seq<(nat, nat)>)

  datatype Reader = Reader(done: seq<Desc>, cur: Option<Desc>)

  function ReadOne(r: Reader, s: Slot): Reader {
    if s.DType() == DTYP_MSG then r.(cur := Some(Desc(s.Channel(), s.DataLen(), [])))
    else if r.cur.None? then r
    else
      var d := r.cur.value;
      var grown := d.(parts := d.parts + [(s.DataLen(), s.Address())]);
      if s.Cont() then r.(cur := Some(grown)) else Reader(r.done + [grown], None)
  }

  /** What a reader that looks only at hardware words makes of the descriptors. */
  function ReadAll(r: Reader, slots: seq<Slot>): Reader {
    if slots == [] then r
    else ReadOne(ReadAll(r, slots[..|slots| - 1]), slots[|slots| - 1])
  }

  lemma ReadSnoc(r: Reader, slots: seq<Slot>, s: Slot)
    ensures ReadAll(r, slots + [s]) == ReadOne(ReadAll(r, slots), s) && ReadAll(r, []) == r
  {
    assert (slots + [s])[..|slots|] == slots;
  }

  lemma {:induction false} ReadSplit(r: Reader, a: seq<Slot>, b: seq<Slot>)
    ensures ReadAll(r, a + b) == ReadAll(ReadAll(r, a), b)
  {
    if b == [] {
      assert a + b == a;
    } else {
      ReadSplit(r, a, b[..|b| - 1]);
      assert (a + b)[..|a + b| - 1] == a + b[..|b| - 1];
    }
  }

  function DescParts(x: Sent, k: nat): (r: seq<(nat, nat)>)
    requires x.Ok() && k <= x.buf.PayloadCnt()
    ensures |r| == k
  {
    seq(k, i requires 0 <= i < x.buf.PayloadCnt() => (x.buf.PartLen(i), x.addrs[i]))
  }

  function DescOf(x: Sent): Desc
    requires x.Ok()
  {
    Desc(x.buf.netif, x.buf.len, DescParts(x, x.buf.PayloadCnt()))
  }

  function Descs(sent: seq<Sent>): (r: seq<Desc>)
    requires AllOk(sent)
    ensures |r| == |sent|
  {
    seq(|sent|, i requires 0 <= i < |sent| => DescOf(sent[i]))
  }

  /** Lengths fit the 16-bit fields, the interface its 8 bits. */
  predicate Fits(x: Sent) {
    && x.buf.len < 0x1_0000 && x.buf.netif < 0x100 && x.buf.headLen < 0x1_0000
    && forall i :: 0 <= i < |x.buf.fragLens| ==> x.buf.fragLens[i] < 0x1_0000
  }

  lemma {:induction false} ReadFrame(r: Reader, x: Sent, k: nat)
    requires x.Ok() && Fits(x) && k <= x.buf.PayloadCnt()
    ensures ReadAll(r, Frame(x)[..1 + k]) ==
            if k < x.buf.PayloadCnt()
            then r.(cur := Some(Desc(x.buf.netif, x.buf.len, DescParts(x, k))))
            else Reader(r.done + [DescOf(x)], None)
  {
    hide ReadAll, ReadOne, Frame;
    if k == 0 {
      ReadMsg(r, x);
    } else {
      var f := Frame(x);
      ReadFrame(r, x, k - 1);
      assert f[..1 + k] == f[..k] + [f[k]];
      ReadSnoc(r, f[..k], f[k]);
      ReadPart(r, x, k);
    }
  }

  lemma ReadMsg(r: Reader, x: Sent)
    requires x.Ok() && Fits(x)
    ensures ReadAll(r, Frame(x)[..1]) == r.(cur := Some(Desc(x.buf.netif, x.buf.len, DescParts(x, 0))))
  {
    hide ReadAll;
    var f := Frame(x);
    HeaderFields(true, DTYP_MSG, x.buf.len);
    assert f[..1] == [] + [f[0]];
    ReadSnoc(r, [], f[0]);
    ChannelField(x.buf.netif);
    assert DescParts(x, 0) == [];
  }

  lemma PdFields(x: Sent, k: nat)
    requires x.Ok() && Fits(x) && k < x.buf.PayloadCnt()
    ensures var s := PdSlot(x.buf, k, x.addrs[k]);
            && s.DType() == DTYP_PD && (s.Cont() <==> k + 1 < x.buf.PayloadCnt())
            && s.DataLen() == x.buf.PartLen(k) && s.Address() == x.addrs[k]
  {
    HeaderFields(k != x.buf.PayloadCnt() - 1, DTYP_PD, x.buf.PartLen(k));
  }

  lemma ReadPart(r: Reader, x: Sent, k: nat)
    requires x.Ok() && Fits(x) && 0 < k <= x.buf.PayloadCnt()
    ensures var before := r.(cur := Some(Desc(x.buf.netif, x.buf.len, DescParts(x, k - 1))));
            ReadOne(before, Frame(x)[k]) ==
            if k < x.buf.PayloadCnt()
            then r.(cur := Some(Desc(x.buf.netif, x.buf.len, DescParts(x, k))))
            else Reader(r.done + [DescOf(x)], None)
  {
    hide PdSlot, Slot.DType, Slot.Cont, Slot.DataLen, Slot.Address, Fits;
    PdFields(x, k - 1);
    assert Frame(x)[k] == PdSlot(x.buf, k - 1, x.addrs[k - 1]);
    hide Frame;
    assert DescParts(x, k) == DescParts(x, k - 1) + [(x.buf.PartLen(k - 1), x.addrs[k - 1])];
  }

  lemma ChannelField(netif: nat)
    requires netif < 0x100
    ensures ((netif % 0x100 * 0x1_0000 + 0x2000_0000) / 0x1_0000) % 0x100 == netif
  {
    assert (netif * 0x1_0000 + 0x2000_0000) / 0x1_0000 == netif + 0x2000;
  }

  /** Framing round trip: the descriptors of any list of packets read back as
      exactly those packets, in order, with their lengths and addresses. */
  lemma {:induction false} FramingRoundTrip(done: seq<Desc>, sent: seq<Sent>)
    requires AllOk(sent) && forall i :: 0 <= i < |sent| ==> Fits(sent[i])
    ensures ReadAll(Reader(done, None), Stream(sent)) ==
            Reader(done + Descs(sent), None)
  {
    hide Frame, DescOf, Fits;
    ReadSnoc(Reader(done, None), [], BlankSlot);
    hide ReadAll;
    if sent != [] {
      var k := |sent| - 1;
      FramingRoundTrip(done, sent[..k]);
      ReadSplit(Reader(done, None), Stream(sent[..k]), Frame(sent[k]));
      var r := ReadAll(Reader(done, None), Stream(sent[..k]));
      ReadFrame(r, sent[k], sent[k].buf.PayloadCnt());
      assert Frame(sent[k])[..1 + sent[k].buf.PayloadCnt()] == Frame(sent[k]);
      assert Descs(sent) == Descs(sent[..k]) + [DescOf(sent[k])];
    }
  }
}
