/** A control transmit ring: linked descriptors with a hardware-own bit, shared by
    senders, the completion worker and the hardware
    (src/t7xx_hif_cldma.c:257-296, 469-518, 758-776, 843-872, 921-993). */
module CldmaTx {
  import opened Ring
  import opened DrbStream
  import opened Errno

  /** Positions count requests since the ring was last reset; skb and hwo are the
      request table and the hardware-own flags. */
  datatype State = State(
    n: RingSize,
    skb: seq<Option<nat>>,
    hwo: seq<bool>,
    done: nat,             // tr_done == Idx(n, done)
    next: nat,             // tx_next == Idx(n, next)
    budget: int,
    sent: seq<nat>,        // buffers put into the ring since the reset
    submitted: seq<nat>,   // buffers ever put into the ring
    freed: seq<nat>)       // buffers freed, in order

  datatype Action =
    | Send(buf: nat, active: bool)  // with its DMA mapping succeeding
    | HwDone(idx: nat)              // the hardware gives a descriptor back
    | CollectOne                    // one turn of the completion loop
    | Clear                         // t7xx_cldma_clear_txq

  ghost predicate Shape(s: State) {
    |s.skb| == |s.hwo| == s.n
  }

  function Init(n: RingSize): State {
    State(n, seq(n, _ => None), seq(n, _ => false), 0, 0, n, [], [], [])
  }

  // ----- the steps -----

  /** The locked section of t7xx_cldma_send_skb, with the outcome of the mapping,
      which the code ignores. */
  function SendOne(s: State, buf: nat, active: bool, mapOk: bool): (t: State)
    requires Shape(s)
    ensures Shape(t) && t.n == s.n
  {
    var i := Idx(s.n, s.next);
    if !(s.budget > 0 && s.skb[i].None?) then s
    else
      var moved := s.(budget := s.budget - 1, next := s.next + 1, submitted := s.submitted + [buf]);
      if !mapOk then moved
      else moved.(skb := s.skb[i := Some(buf)], hwo := if active then s.hwo[i := true] else s.hwo,
                  sent := s.sent + [buf])
  }

  predicate Collectable(s: State)
    requires |s.skb| == |s.hwo| == s.n
  {
    var i := Idx(s.n, s.done);
    !s.hwo[i] && s.skb[i].Some?
  }

  /** The locked section of t7xx_cldma_gpd_tx_collect and the free after it. */
  function Collected(s: State): (t: State)
    requires Shape(s)
    ensures Shape(t) && t.n == s.n
  {
    var i := Idx(s.n, s.done);
    if Collectable(s) then
      s.(skb := s.skb[i := None], budget := s.budget + 1, done := s.done + 1, freed := s.freed + [s.skb[i].value])
    else s
  }

  /** The buffers recorded in the table, in table order. */
  function Owners(skb: seq<Option<nat>>): seq<nat> {
    if skb == [] then []
    else
      var last := skb[|skb| - 1];
      Owners(skb[..|skb| - 1]) + if last.Some? then [last.value] else []
  }

  function Cleared(s: State): (t: State)
    requires Shape(s)
    ensures Shape(t) && t.n == s.n
  {
    State(s.n, seq(s.n, _ => None), seq(s.n, _ => false), 0, 0, s.n, [], s.submitted, s.freed + Owners(s.skb))
  }

  function Apply(s: State, a: Action): (t: State)
    requires Shape(s)
    ensures Shape(t) && t.n == s.n
  {
    match a
    case Send(buf, active) => SendOne(s, buf, active, true)
    case HwDone(idx) => if idx < s.n then s.(hwo := s.hwo[idx := false]) else s
    case CollectOne => Collected(s)
    case Clear => Cleared(s)
  }

  function Run(s: State, acts: seq<Action>): (t: State)
    requires Shape(s)
    ensures Shape(t) && t.n == s.n
  {
    if acts == [] then s else Apply(Run(s, acts[..|acts| - 1]), acts[|acts| - 1])
  }

  // ----- the invariant -----

  /** tx_next is ring length - budget ahead of tr_done, exactly those requests hold
      buffers, and the hardware owns no other. */
  ghost predicate RingOk(s: State)
    requires Shape(s)
  {
    && s.done <= s.next <= s.done + s.n
    && s.budget == s.n - (s.next - s.done)
    && s.next == |s.sent|
    && (forall c :: s.done <= c < s.next ==> s.skb[Idx(s.n, c)] == Some(s.sent[c]))
    && (forall c :: s.next <= c < s.done + s.n ==> s.skb[Idx(s.n, c)] == None)
    && (forall i :: 0 <= i < s.n && s.hwo[i] ==> s.skb[i].Some?)
  }

  ghost predicate Conserved(submitted: seq<nat>, freed: seq<nat>, live: seq<nat>) {
    forall b {:trigger multiset(submitted)[b]} :: multiset(submitted)[b] == multiset(freed)[b] + multiset(live)[b]
  }

  ghost predicate Inv(s: State) {
    Shape(s) && RingOk(s) && Conserved(s.submitted, s.freed, s.sent[s.done..])
  }

  lemma InitInv(n: RingSize)
    ensures Inv(Init(n))
  {
  }

  /** The sender's two conditions are one: there is budget exactly when the request
      at tx_next is free, so a woken sender never spins. */
  lemma BudgetMeansFree(s: State)
    requires Inv(s)
    ensures s.budget > 0 <==> s.skb[Idx(s.n, s.next)].None?
    ensures s.budget > 0 ==> !s.hwo[Idx(s.n, s.next)]
  {
    if s.budget == 0 {
      IdxAdd(s.n, s.done, s.n);
      assert s.skb[Idx(s.n, s.done)].Some?;
    }
  }

  lemma SendRing(s: State, buf: nat, active: bool)
    requires Inv(s)
    ensures RingOk(SendOne(s, buf, active, true))
  {
    var t := SendOne(s, buf, active, true);
    if s.budget > 0 && s.skb[Idx(s.n, s.next)].None? {
      forall c | s.done <= c < s.done + s.n && c != s.next ensures Idx(s.n, c) != Idx(s.n, s.next) {
        if Idx(s.n, c) == Idx(s.n, s.next) {
          IdxInjective(s.n, s.done, c, s.next);
        }
      }
    }
  }

  lemma SendInv(s: State, buf: nat, active: bool)
    requires Inv(s)
    ensures Inv(SendOne(s, buf, active, true))
  {
    hide RingOk;
    SendRing(s, buf, active);
    SendBounds(s);
    var t := SendOne(s, buf, active, true);
    if t != s {
      assert t.sent[t.done..] == s.sent[s.done..] + [buf];
    }
  }

  lemma SendBounds(s: State)
    requires Inv(s)
    ensures s.done <= |s.sent| && s.next == |s.sent|
  {
  }

  /** The ring survives a send exactly when the DMA mapping succeeded: after a
      mapping error the advance of tx_next is not taken back. */
  lemma SendExact(s: State, buf: nat, active: bool, mapOk: bool)
    requires Inv(s) && s.budget > 0
    ensures Inv(SendOne(s, buf, active, mapOk)) <==> mapOk
  {
    BudgetMeansFree(s);
    if mapOk {
      SendInv(s, buf, active);
    }
  }

  lemma CollectRing(s: State)
    requires Inv(s) && Collectable(s)
    ensures s.done < s.next && RingOk(Collected(s)) && Collected(s).freed == s.freed + [s.sent[s.done]]
  {
    var t := Collected(s);
    IdxAdd(s.n, s.done, s.n);
    forall c | s.done + 1 <= c < s.done + s.n ensures Idx(s.n, c) != Idx(s.n, s.done) {
      if Idx(s.n, c) == Idx(s.n, s.done) {
        IdxInjective(s.n, s.done, c, s.done);
      }
    }
    forall c | t.next <= c < t.done + t.n ensures t.skb[Idx(s.n, c)] == None {
      if c == s.done + s.n {
        assert Idx(s.n, c) == Idx(s.n, s.done);
      }
    }
  }

  /** Completion is first in, first out, and touches no request the hardware owns. */
  lemma CollectInv(s: State)
    requires Inv(s)
    ensures Inv(Collected(s))
    ensures Collected(s) != s ==> !s.hwo[Idx(s.n, s.done)] && s.done < |s.sent|
    ensures Collected(s) != s ==> Collected(s).freed == s.freed + [s.sent[s.done]] && Collected(s).hwo == s.hwo
  {
    if Collectable(s) {
      CollectRing(s);
      SendBounds(s);
      var t := Collected(s);
      hide RingOk, Collected;
      assert s.sent[s.done..] == [s.sent[s.done]] + s.sent[s.done + 1..];
    }
  }

  // ----- clearing -----

  lemma {:induction false} OwnersCount(skb: seq<Option<nat>>, b: nat)
    ensures multiset(Owners(skb))[b] == multiset(skb)[Some(b)]
  {
    if skb != [] {
      var k := |skb| - 1;
      OwnersCount(skb[..k], b);
      assert skb == skb[..k] + [skb[k]];
    }
  }

  function Somes(s: seq<nat>): (r: seq<Option<nat>>)
    ensures |r| == |s|
  {
    seq(|s|, i requires 0 <= i < |s| => Some(s[i]))
  }

  lemma {:induction false} SomesCount(s: seq<nat>, b: nat)
    ensures multiset(Somes(s))[Some(b)] == multiset(s)[b]
  {
    if s != [] {
      var k := |s| - 1;
      SomesCount(s[..k], b);
      assert s == s[..k] + [s[k]];
      assert Somes(s) == Somes(s[..k]) + [Some(s[k])];
    }
  }

  /** The table holds each live buffer as often as the live part of the send order. */
  lemma TableCount(s: State, b: nat)
    requires Inv(s)
    ensures s.done <= |s.sent|
    ensures multiset(Owners(s.skb))[b] == multiset(s.sent[s.done..])[b]
  {
    var r := Idx(s.n, s.done);
    var rot := s.skb[r..] + s.skb[..r];
    var live := s.sent[s.done..];
    forall k | 0 <= k < s.n ensures rot[k] == s.skb[Idx(s.n, s.done + k)] {
      IdxAdd(s.n, s.done, k);
    }
    var w := s.next - s.done;
    assert rot[..w] == Somes(live);
    var rest := rot[w..];
    assert forall k :: 0 <= k < |rest| ==> rest[k] == None;
    RotationCount(s.skb, r, w, live, b);
  }

  lemma RotationCount(skb: seq<Option<nat>>, r: nat, w: nat, live: seq<nat>, b: nat)
    requires r <= |skb| && w <= |skb|
    requires var rot := skb[r..] + skb[..r];
             rot[..w] == Somes(live) && forall k :: 0 <= k < |skb| - w ==> rot[w..][k] == None
    ensures multiset(Owners(skb))[b] == multiset(live)[b]
  {
    hide Owners, Somes;
    var rot := skb[r..] + skb[..r];
    assert skb == skb[..r] + skb[r..];
    assert multiset(skb) == multiset(rot);
    assert rot == rot[..w] + rot[w..];
    assert Some(b) !in rot[w..];
    SomesCount(live, b);
    OwnersCount(skb, b);
  }

  lemma ClearInv(s: State)
    requires Inv(s)
    ensures Inv(Cleared(s))
  {
    var t := Cleared(s);
    forall b ensures multiset(t.submitted)[b] == multiset(t.freed)[b] + multiset(t.sent[t.done..])[b] {
      TableCount(s, b);
      hide RingOk, Owners;
      assert multiset(s.submitted)[b] == multiset(s.freed)[b] + multiset(s.sent[s.done..])[b];
      assert multiset(s.freed + Owners(s.skb))[b] == multiset(s.freed)[b] + multiset(Owners(s.skb))[b];
    }
  }

  lemma ApplyInv(s: State, a: Action)
    requires Inv(s)
    ensures Inv(Apply(s, a))
  {
    match a
    case Send(buf, active) => SendInv(s, buf, active);
    case HwDone(idx) =>
    case CollectOne => CollectInv(s);
    case Clear => ClearInv(s);
  }

  /** Over any run of sends, hardware completions, collections and clears, the ring
      keeps its shape and every submitted buffer is freed once or still live. */
  lemma {:induction false} RunInv(s: State, acts: seq<Action>)
    requires Inv(s)
    ensures Inv(Run(s, acts))
  {
    if acts != [] {
      RunInv(s, acts[..|acts| - 1]);
      ApplyInv(Run(s, acts[..|acts| - 1]), acts[|acts| - 1]);
    }
  }

  /** In every reachable state tx_next is ring length - budget ahead of tr_done, the
      requests between them and no others hold buffers, the hardware owns none of the
      others, "budget > 0" and "tx_next has no buffer" are the same, and each buffer
      was freed or is live as often as it was submitted. */
  lemma ReachableRing(n: RingSize, acts: seq<Action>)
    ensures var s := Run(Init(n), acts);
            && 0 <= s.budget <= n && s.next == s.done + (n - s.budget) <= |s.sent|
            && (forall i :: 0 <= i < n ==> (s.skb[i].Some? <==> Live(n, s.done, s.next, i)))
            && (forall i :: 0 <= i < n && s.hwo[i] ==> Live(n, s.done, s.next, i))
            && (s.budget > 0 <==> s.skb[Idx(n, s.next)].None?)
            && (forall b {:trigger multiset(s.submitted)[b]} ::
                  multiset(s.submitted)[b] == multiset(s.freed)[b] + multiset(s.sent[s.done..])[b])
  {
    InitInv(n);
    RunInv(Init(n), acts);
    var s := Run(Init(n), acts);
    hide Run;
    BudgetMeansFree(s);
    forall i | 0 <= i < n ensures s.skb[i].Some? <==> Live(n, s.done, s.next, i) {
      var c := PositionOf(n, s.done, i);
    }
  }

  lemma OwnedStep(s: State, p: nat, a: Action)
    requires Inv(s) && s.done <= p < s.next && s.hwo[Idx(s.n, p)]
    requires !a.Clear? && a != HwDone(Idx(s.n, p))
    ensures var t := Apply(s, a); t.done <= p < t.next && t.hwo[Idx(s.n, p)]
  {
  }

  /** A request the hardware owns stays where it is until the hardware gives that
      descriptor back. */
  lemma {:induction false} OwnedStays(s: State, p: nat, acts: seq<Action>)
    requires Inv(s) && s.done <= p < s.next && s.hwo[Idx(s.n, p)]
    requires Clear !in acts && HwDone(Idx(s.n, p)) !in acts
    ensures var t := Run(s, acts); t.done <= p < t.next && t.hwo[Idx(s.n, p)]
  {
    hide RingOk, Conserved, Idx, Apply;
    if acts != [] {
      var k := |acts| - 1;
      OwnedStays(s, p, acts[..k]);
      RunInv(s, acts[..k]);
      assert acts[k] in acts;
      OwnedStep(Run(s, acts[..k]), p, acts[k]);
    }
  }

  /** Over any run without a clear, a buffer sent while the queue is active is collected
      only after the hardware has given its descriptor back, later than the send. */
  lemma CollectedAfterDone(s: State, buf: nat, acts: seq<Action>)
    requires Inv(s) && s.budget > 0 && Clear !in acts
    ensures var p := s.next;
            var sent := Apply(s, Send(buf, true));
            && sent.hwo[Idx(s.n, p)] && sent.skb[Idx(s.n, p)] == Some(buf)
            && (Run(sent, acts).done > p ==> HwDone(Idx(s.n, p)) in acts)
  {
    BudgetMeansFree(s);
    SendInv(s, buf, true);
    SendBounds(s);
    if HwDone(Idx(s.n, s.next)) !in acts {
      OwnedStays(Apply(s, Send(buf, true)), s.next, acts);
    }
  }

  ghost predicate InOrder(s: State) {
    s.submitted == s.sent && s.done <= |s.sent| && s.freed == s.sent[..s.done]
  }

  lemma StepInOrder(s: State, a: Action)
    requires Inv(s) && InOrder(s) && !a.Clear?
    ensures InOrder(Apply(s, a))
  {
    SendBounds(s);
    if a.CollectOne? && Collectable(s) {
      CollectRing(s);
      hide RingOk;
      assert s.sent[..s.done + 1] == s.sent[..s.done] + [s.sent[s.done]];
    }
  }

  /** Without a clear, buffers are freed in the order they were sent. */
  lemma {:induction false} CompletionInOrder(n: RingSize, acts: seq<Action>)
    requires Clear !in acts
    ensures InOrder(Run(Init(n), acts))
  {
    hide Apply, Inv;
    if acts != [] {
      var k := |acts| - 1;
      CompletionInOrder(n, acts[..k]);
      InitInv(n);
      RunInv(Init(n), acts[..k]);
      assert acts[k] in acts;
      StepInOrder(Run(Init(n), acts[..k]), acts[k]);
    }
  }

  // ----- the queue object -----

  ghost function Collects(k: nat): (acts: seq<Action>)
    ensures |acts| == k
  {
    seq(k, _ => CollectOne)
  }

  lemma RunSnoc(s: State, acts: seq<Action>, a: Action)
    requires Shape(s)
    ensures Run(s, []) == s
    ensures Run(s, acts + [a]) == Apply(Run(s, acts), a)
  {
    assert (acts + [a])[..|acts|] == acts;
  }

  lemma {:induction false} RunAppend(s: State, a: seq<Action>, b: seq<Action>)
    requires Shape(s)
    ensures Run(s, a + b) == Run(Run(s, a), b)
  {
    hide Apply;
    if b == [] {
      assert a + b == a;
    } else {
      RunAppend(s, a, b[..|b| - 1]);
      assert (a + b)[..|a + b| - 1] == a + b[..|b| - 1];
    }
  }

  /** The actions of the first k slices of concurrent activity. */
  function Slices(slices: seq<seq<Action>>, k: nat): seq<Action>
    requires k <= |slices|
  {
    if k == 0 then [] else Slices(slices, k - 1) + slices[k - 1]
  }

  function Sends(acts: seq<Action>): nat {
    if acts == [] then 0 else Sends(acts[..|acts| - 1]) + if acts[|acts| - 1].Send? then 1 else 0
  }

  lemma {:induction false} SendsAppend(a: seq<Action>, b: seq<Action>)
    ensures Sends(a + b) == Sends(a) + Sends(b)
  {
    if b == [] {
      assert a + b == a;
    } else {
      SendsAppend(a, b[..|b| - 1]);
      assert (a + b)[..|a + b| - 1] == a + b[..|b| - 1];
    }
  }

  /** Only a send takes budget away. */
  lemma {:induction false} BudgetTaken(s: State, acts: seq<Action>)
    requires Inv(s) && s.budget > 0 && Run(s, acts).budget <= 0
    ensures Sends(acts) > 0
  {
    if acts != [] {
      var k := |acts| - 1;
      var m := Run(s, acts[..k]);
      if m.budget <= 0 {
        BudgetTaken(s, acts[..k]);
      } else {
        RunInv(s, acts[..k]);
        hide Inv;
      }
    }
  }

  /** struct cldma_queue of a transmit direction. */
  class TxQueue {
    const n: RingSize
    const skb: array<Option<nat>>
    const hwo: array<bool>
    var trDone: nat
    var txNext: nat
    var budget: int
    var freed: seq<nat>
    ghost var done: nat
    ghost var next: nat
    ghost var sent: seq<nat>
    ghost var submitted: seq<nat>

    ghost predicate Shaped()
      reads this
    {
      && skb.Length == n && hwo.Length == n
      && trDone == Idx(n, done) && txNext == Idx(n, next)
    }

    ghost function View(): (s: State)
      requires skb.Length == n && hwo.Length == n
      reads this, skb, hwo
      ensures Shape(s)
    {
      State(n, skb[..], hwo[..], done, next, budget, sent, submitted, freed)
    }

    ghost predicate Valid()
      reads this, skb, hwo
    {
      Shaped() && Inv(View())
    }

    /** t7xx_cldma_tx_ring_init and t7xx_cldma_q_reset */
    constructor (size: RingSize)
      ensures n == size && Valid() && View() == Init(size) && fresh(skb) && fresh(hwo)
    {
      n := size;
      skb := new Option<nat>[size](_ => None);
      hwo := new bool[size](_ => false);
      trDone, txNext, budget, freed := 0, 0, size, [];
      done, next, sent, submitted := 0, 0, [], [];
      new;
      assert skb[..] == Init(size).skb && hwo[..] == Init(size).hwo;
      InitInv(size);
    }

    /** t7xx_cldma_gpd_handle_tx_request */
    method HandleTxRequest(idx: nat, buf: nat, mapOk: bool, active: bool) returns (ret: int)
      requires skb.Length == n && hwo.Length == n && idx < n
      modifies this`sent, skb, hwo
      ensures ret == if mapOk then 0 else -ENOMEM
      ensures skb[..] == if mapOk then old(skb[..])[idx := Some(buf)] else old(skb[..])
      ensures hwo[..] == if mapOk && active then old(hwo[..])[idx := true] else old(hwo[..])
      ensures sent == if mapOk then old(sent) + [buf] else old(sent)
    {
      if !mapOk {
        return -ENOMEM;
      }
      if active {
        hwo[idx] := true;
      }
      skb[idx] := Some(buf);
      sent := sent + [buf];
      ret := 0;
    }

    /** The locked section of the send loop: true when the buffer went in (or was
        lost to a mapping error the code does not report). */
    method TrySend(buf: nat, active: bool, mapOk: bool) returns (queued: bool)
      requires Valid()
      modifies this`budget, this`txNext, this`next, this`sent, this`submitted, skb, hwo
      ensures Shaped() && View() == SendOne(old(View()), buf, active, mapOk)
      ensures queued <==> old(budget) > 0
      ensures mapOk || !queued ==> Valid()
      ensures queued ==> submitted == old(submitted) + [buf]
      // the buffer goes into the request at tx_next, and on an active queue that
      // descriptor and no other is handed to the hardware
      ensures queued && mapOk ==> skb[..] == old(skb[..])[old(txNext) := Some(buf)]
      ensures queued && mapOk ==> hwo[..] == if active then old(hwo[..])[old(txNext) := true] else old(hwo[..])
      ensures !queued || !mapOk ==> skb[..] == old(skb[..]) && hwo[..] == old(hwo[..])
      ensures queued ==> txNext == NextIdx(n, old(txNext)) && budget == old(budget) - 1
    {
      BudgetMeansFree(View());
      SendExactIfQueued(View(), buf, active, mapOk);
      hide Inv;
      ghost var s := View();
      var txReq := txNext;
      queued := false;
      if budget > 0 && skb[txReq].None? {
        budget := budget - 1;
        var _ := HandleTxRequest(txReq, buf, mapOk, active);
        NextIdxOfPosition(n, next);
        txNext := NextIdx(n, txReq);
        next := next + 1;
        submitted := submitted + [buf];
        queued := true;
      }
    }

    /** A completion the hardware writes back. */
    method HwGiveBack(idx: nat)
      requires Valid() && idx < n
      modifies hwo
      ensures Valid() && View() == Apply(old(View()), HwDone(idx))
    {
      ApplyInv(View(), HwDone(idx));
      ghost var s := View();
      hwo[idx] := false;
      assert hwo[..] == s.hwo[idx := false];
    }

    /** t7xx_cldma_gpd_tx_collect; the thread is asked to stop after maxTurns. It ends
        at the first request that is empty or still owned by the hardware. */
    method GpdTxCollect(maxTurns: nat) returns (count: nat)
      requires Valid()
      modifies this`budget, this`trDone, this`done, this`freed, skb
      ensures Valid() && count <= maxTurns
      ensures View() == Run(old(View()), Collects(count))
      ensures count < maxTurns ==> !Collectable(View())
      ensures hwo[..] == old(hwo[..]) && budget == old(budget) + count && done == old(done) + count
    {
      hide Run, Apply, Inv, Collected;
      count := 0;
      RunSnoc(View(), [], CollectOne);
      assert Collects(0) == [];
      ghost var s0, s := View(), View();
      while count < maxTurns
        invariant 0 <= count <= maxTurns && Valid()
        invariant View() == s && s == Run(s0, Collects(count))
        invariant hwo[..] == s0.hwo && budget == s0.budget + count && done == s0.done + count
        decreases maxTurns - count
      {
        CollectStep(s);
        CollectInv(s);
        var more := CollectTurn();
        if !more {
          break;
        }
        assert Collects(count + 1) == Collects(count) + [CollectOne];
        RunSnoc(s0, Collects(count), CollectOne);
        s := Apply(s, CollectOne);
        count := count + 1;
      }
    }

    /** The locked section of the collection loop. */
    method CollectTurn() returns (more: bool)
      requires Shaped()
      modifies this`budget, this`trDone, this`done, this`freed, skb
      ensures Shaped() && (more <==> Collectable(old(View())))
      ensures View() == Collected(old(View()))
    {
      hide Idx;
      ghost var s := View();
      var req := trDone;
      more := !hwo[req] && skb[req].Some?;
      if more {
        budget := budget + 1;
        var buf := skb[req].value;
        skb[req] := None;
        NextIdxOfPosition(n, done);
        trDone := NextIdx(n, req);
        done := done + 1;
        freed := freed + [buf];
        assert skb[..] == s.skb[req := None];
      }
    }

    /** One action of another thread or of the hardware. */
    method OtherOne(act: Action)
      requires Valid()
      modifies this`budget, this`trDone, this`done, this`txNext, this`next, this`sent, this`submitted, this`freed, skb, hwo
      ensures Valid() && View() == Apply(old(View()), act)
    {
      ApplyInv(View(), act);
      hide Inv;
      match act {
        case Send(buf, active) =>
          var _ := TrySend(buf, active, true);
        case HwDone(idx) =>
          if idx < n {
            HwGiveBack(idx);
          }
        case CollectOne =>
          var _ := CollectTurn();
        case Clear =>
          ClearTxq();
      }
    }

    /** A slice of concurrent activity: other senders, completions, collections. */
    method Others(acts: seq<Action>)
      requires Valid()
      modifies this`budget, this`trDone, this`done, this`txNext, this`next, this`sent, this`submitted, this`freed, skb, hwo
      ensures Valid() && View() == Run(old(View()), acts)
    {
      hide Inv, Run, Apply, Shaped;
      ghost var s0, s := View(), View();
      RunSnoc(s0, [], Clear);
      assert acts[..0] == [];
      var i := 0;
      while i < |acts|
        invariant 0 <= i <= |acts| && Valid() && View() == s && s == Run(s0, acts[..i])
      {
        OtherOne(acts[i]);
        RunSnoc(s0, acts[..i], acts[i]);
        assert acts[..i + 1] == acts[..i] + [acts[i]];
        s := Apply(s, acts[i]);
        i := i + 1;
      }
      assert acts[..|acts|] == acts;
    }

    /** The next slice of a list, with the history it extends. */
    method NextSlice(slices: seq<seq<Action>>, k: nat, ghost s0: State)
      requires Valid() && k < |slices| && Shape(s0) && View() == Run(s0, Slices(slices, k))
      modifies this`budget, this`trDone, this`done, this`txNext, this`next, this`sent, this`submitted, this`freed, skb, hwo
      ensures Valid() && View() == Run(s0, Slices(slices, k + 1))
      ensures Sends(Slices(slices, k + 1)) == Sends(Slices(slices, k)) + Sends(slices[k])
      ensures old(budget) > 0 && budget <= 0 ==> Sends(slices[k]) > 0
    {
      hide Inv, Run, Shaped;
      ghost var s := View();
      Others(slices[k]);
      RunAppend(s0, Slices(slices, k), slices[k]);
      SendsAppend(Slices(slices, k), slices[k]);
      if s.budget > 0 && budget <= 0 {
        BudgetTaken(s, slices[k]);
      }
    }

    /** The wait for budget, woken after each slice of activity; when the slices run out
        without budget the wait was interrupted. */
    method WaitForBudget(slices: seq<seq<Action>>, from: nat, ghost s0: State) returns (ok: bool, used: nat)
      requires Valid() && from <= |slices| && Shape(s0) && View() == Run(s0, Slices(slices, from))
      modifies this`budget, this`trDone, this`done, this`txNext, this`next, this`sent, this`submitted, this`freed, skb, hwo
      ensures Valid() && from <= used <= |slices| && ok == (budget > 0) && (!ok ==> used == |slices|)
      ensures View() == Run(s0, Slices(slices, used))
      ensures Sends(Slices(slices, from)) <= Sends(Slices(slices, used))
    {
      hide Inv, Run, Sends, Slices;
      used := from;
      while used < |slices| && budget <= 0
        invariant from <= used <= |slices| && Valid()
        invariant View() == Run(s0, Slices(slices, used))
        invariant Sends(Slices(slices, from)) <= Sends(Slices(slices, used))
      {
        NextSlice(slices, used, s0);
        used := used + 1;
      }
      ok := budget > 0;
    }

    /** What slips in between a wake-up and the ring lock: the next slice, if any. */
    method Race(slices: seq<seq<Action>>, from: nat, ghost s0: State) returns (used: nat)
      requires Valid() && from <= |slices| && Shape(s0) && View() == Run(s0, Slices(slices, from))
      modifies this`budget, this`trDone, this`done, this`txNext, this`next, this`sent, this`submitted, this`freed, skb, hwo
      ensures Valid() && used == (if from < |slices| then from + 1 else from)
      ensures View() == Run(s0, Slices(slices, used))
      ensures Sends(Slices(slices, used)) == Sends(Slices(slices, from)) + if from < |slices| then Sends(slices[from]) else 0
      ensures old(budget) > 0 && budget <= 0 ==> from < |slices| && Sends(slices[from]) > 0
    {
      hide Inv, Run, Shaped, Slices, Sends;
      used := from;
      if from < |slices| {
        NextSlice(slices, from, s0);
        used := from + 1;
      }
    }

    /** t7xx_cldma_send_skb from the activity check on, among other senders. The buffer
        goes in on a turn that finds budget; after the first two, every further turn
        means that another send took the request first. A sleep-lock timeout after
        queueing is reported as an error although the buffer is in the ring. */
    method SendSkb(buf: nat, active: bool, hwActive: bool, mapOk: bool, sleepOk: bool, slices: seq<seq<Action>>)
        returns (ret: int, queued: bool, ghost turns: nat, ghost used: nat)
      requires Valid()
      modifies this`budget, this`trDone, this`done, this`txNext, this`next, this`sent, this`submitted, this`freed, skb, hwo
      ensures used <= |slices|
      ensures mapOk || !queued ==>
                Valid() && View() == Run(old(View()), Slices(slices, used) + if queued then [Send(buf, hwActive)] else [])
      ensures turns <= 2 + Sends(Slices(slices, used))
      ensures ret == 0 <==> queued && sleepOk
      ensures ret == -ERESTARTSYS ==> used == |slices| && budget <= 0
      ensures ret in {0, -EIO, -ETIMEDOUT, -ERESTARTSYS} && (ret == -ETIMEDOUT ==> !sleepOk)
      ensures !active <==> ret == -EIO
      ensures active && old(budget) > 0 && (slices == [] || Sends(slices[0]) == 0) ==> queued
    {
      hide Inv, Run, Apply, Shaped, SendOne, Slices, Sends;
      queued, turns, used := false, 0, 0;
      ghost var s0 := View();
      RunSnoc(s0, [], Clear);
      FirstSlice(slices);
      assert Slices(slices, 0) + [] == [];
      if !active {
        return -EIO, false, 0, 0;
      }
      ret := 0;
      var i := 0;
      while true
        invariant 0 <= i == used <= |slices| && Valid() && !queued && ret == 0
        invariant View() == Run(s0, Slices(slices, i))
        invariant turns <= 1 + Sends(Slices(slices, i)) && (turns > 0 ==> budget > 0)
        invariant turns == 0 ==> i == 0
        invariant old(budget) > 0 && (slices == [] || Sends(slices[0]) == 0) ==> turns == 0
        decreases |slices| - i
      {
        i := Race(slices, i, s0);
        used := i;
        RunSnoc(s0, Slices(slices, i), Send(buf, hwActive));
        assert Slices(slices, i) + [] == Slices(slices, i);
        SendIsOne(View(), buf, hwActive);
        queued := TrySend(buf, hwActive, mapOk);
        turns := turns + 1;
        if queued {
          ret := if sleepOk then 0 else -ETIMEDOUT;
          break;
        }
        if !sleepOk {
          ret := -ETIMEDOUT;
          break;
        }
        var woken;
        woken, i := WaitForBudget(slices, i, s0);
        used := i;
        assert Slices(slices, i) + [] == Slices(slices, i);
        if !woken {
          ret := -ERESTARTSYS;
          break;
        }
      }
    }

    /** t7xx_cldma_clear_txq */
    method ClearTxq()
      requires Valid()
      modifies this`budget, this`trDone, this`done, this`txNext, this`next, this`sent, this`freed, skb, hwo
      ensures Valid() && View() == Cleared(old(View()))
    {
      hide Inv, Owners, Cleared;
      ClearInv(View());
      ResetAndFree();
    }

    method ResetAndFree()
      requires Shaped()
      modifies this`budget, this`trDone, this`done, this`txNext, this`next, this`sent, this`freed, skb, hwo
      ensures Shaped() && View() == Cleared(old(View()))
    {
      hide Owners;
      trDone, txNext, budget := 0, 0, n;
      done, next, sent := 0, 0, [];
      FreeAll();
    }

    method FreeAll()
      requires skb.Length == n && hwo.Length == n
      modifies this`freed, skb, hwo
      ensures freed == old(freed) + Owners(old(skb[..]))
      ensures skb[..] == seq(n, _ => None) && hwo[..] == seq(n, _ => false)
    {
      hide Owners;
      ghost var was := skb[..];
      OwnersSnoc([], None);
      assert was[..0] == [];
      for i := 0 to n
        invariant freed == old(freed) + Owners(was[..i])
        invariant forall j :: 0 <= j < n ==> skb[j] == if j < i then None else was[j]
        invariant forall j :: 0 <= j < i ==> !hwo[j]
      {
        assert was[..i + 1] == was[..i] + [was[i]];
        OwnersSnoc(was[..i], was[i]);
        hwo[i] := false;
        if skb[i].Some? {
          freed := freed + [skb[i].value];
        }
        skb[i] := None;
      }
      assert was[..n] == was;
    }
  }

  lemma SendIsOne(s: State, buf: nat, active: bool)
    requires Shape(s)
    ensures Apply(s, Send(buf, active)) == SendOne(s, buf, active, true)
    ensures s.budget <= 0 ==> forall ok :: SendOne(s, buf, active, ok) == s
  {
  }

  lemma FirstSlice(slices: seq<seq<Action>>)
    ensures slices != [] ==> Slices(slices, 1) == slices[0]
    ensures Sends([]) == 0 && Slices(slices, 0) == []
  {
    if slices != [] {
      assert Slices(slices, 1) == Slices(slices, 0) + slices[0];
    }
  }

  lemma CollectStep(s: State)
    requires Shape(s)
    ensures Apply(s, CollectOne) == Collected(s)
    ensures Collectable(s) ==> Collected(s).budget == s.budget + 1 && Collected(s).done == s.done + 1
    ensures !Collectable(s) ==> Collected(s) == s
    ensures Collected(s).hwo == s.hwo && Collected(s).next == s.next
    ensures Collected(s).sent == s.sent && Collected(s).submitted == s.submitted
  {
  }

  lemma OwnersSnoc(skb: seq<Option<nat>>, o: Option<nat>)
    ensures Owners([]) == []
    ensures Owners(skb + [o]) == Owners(skb) + if o.Some? then [o.value] else []
  {
    assert (skb + [o])[..|skb|] == skb;
  }

  lemma SendExactIfQueued(s: State, buf: nat, active: bool, mapOk: bool)
    requires Inv(s)
    ensures mapOk || s.budget <= 0 ==> Inv(SendOne(s, buf, active, mapOk))
  {
    BudgetMeansFree(s);
    if s.budget > 0 {
      SendExact(s, buf, active, mapOk);
    }
  }
}
