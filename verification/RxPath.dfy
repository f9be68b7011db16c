/** The receive path end to end: completion entries of any number of queues take
    buffers from one shared buffer ring, and the reassembler of each queue hands them
    to the stack (src/t7xx_hif_dpmaif_rx.c:446-455, 623-797). Ring steps of the
    release worker and bitmap marks interleave anywhere. */
module RxPath {
  import opened Ring
  import opened Reassembly
  import opened Bags
  import Bat = BatProtocol

  /** One receive queue: its rx_data_info and what has come out of it. */
  datatype Queue = Queue(info: Info, events: seq<Event>)

  datatype State = State(bat: Bat.State, queues: seq<Queue>)

  datatype Action =
    | RingStep(act: Bat.Action)                        // mark, count, release, refill, publish
    | Entry(q: nat, pit: Pit, fits: bool, page: Take)  // page is what a fragment entry takes

  /** What processing the entry takes: a head takes the buffer the hardware names. */
  function TakeOf(bat: Bat.State, pit: Pit, fits: bool, page: Take): Take {
    if !pit.IsHead() then page
    else if Takes(bat, pit, fits) then Took(bat.slots[pit.BufferId()].skb)
    else Failed
  }

  predicate Takes(bat: Bat.State, pit: Pit, fits: bool) {
    pit.BufferId() < bat.n && pit.BufferId() < |bat.slots| && bat.slots[pit.BufferId()].Holds? && fits
  }

  function Step(q: Queue, pit: Pit, take: Take): Queue {
    var r := StepPit(q.info, pit, take);
    Queue(r.info, q.events + r.events)
  }

  ghost function Apply(s: State, a: Action): (t: State)
    requires Bat.Shape(s.bat)
    ensures Bat.Shape(t.bat) && t.bat.n == s.bat.n && |t.queues| == |s.queues|
  {
    match a
    case RingStep(act) => if act.Take? then s else s.(bat := Bat.Apply(s.bat, act))
    case Entry(q, pit, fits, page) =>
      if q >= |s.queues| then s
      else
        State(RingAfter(s.bat, pit, fits),
              s.queues[q := Step(s.queues[q], pit, TakeOf(s.bat, pit, fits, page))])
  }

  ghost function Run(s: State, acts: seq<Action>): (t: State)
    requires Bat.Shape(s.bat)
    ensures Bat.Shape(t.bat) && t.bat.n == s.bat.n && |t.queues| == |s.queues|
  {
    if acts == [] then s else Apply(Run(s, acts[..|acts| - 1]), acts[|acts| - 1])
  }

  function Init(n: RingSize, queues: nat): State {
    State(Bat.Init(n), seq(queues, _ => Queue(ZeroInfo, [])))
  }

  // ----- every buffer handed up has one fate -----

  /** How often a buffer was settled by a queue or is being built by it. */
  function FateOf(q: Queue, b: nat): nat {
    Settled(q.events)[b] + Held(q.info)[b]
  }

  function Fates(queues: seq<Queue>, b: nat): nat {
    if queues == [] then 0 else Fates(queues[..|queues| - 1], b) + FateOf(queues[|queues| - 1], b)
  }

  lemma {:induction false} FatesUpdate(queues: seq<Queue>, i: nat, q: Queue, b: nat)
    requires i < |queues|
    ensures Fates(queues[i := q], b) == Fates(queues, b) - FateOf(queues[i], b) + FateOf(q, b)
    ensures Fates(queues, b) >= FateOf(queues[i], b)
  {
    hide FateOf;
    var k := |queues| - 1;
    if i == k {
      assert queues[i := q][..k] == queues[..k];
    } else {
      FatesUpdate(queues[..k], i, q, b);
      assert queues[i := q][..k] == queues[..k][i := q];
    }
  }

  lemma {:induction false} FatesOfTwo(queues: seq<Queue>, i: nat, j: nat, b: nat)
    requires i < j < |queues|
    ensures Fates(queues, b) >= FateOf(queues[i], b) + FateOf(queues[j], b)
  {
    hide FateOf;
    var k := |queues| - 1;
    if j == k {
      FatesUpdate(queues[..k], i, queues[i], b);
    } else {
      FatesOfTwo(queues[..k], i, j, b);
    }
  }

  lemma {:induction false} NoFates(queues: seq<Queue>, b: nat)
    requires forall i :: 0 <= i < |queues| ==> queues[i] == Queue(ZeroInfo, [])
    ensures Fates(queues, b) == 0
  {
    if queues != [] {
      NoFates(queues[..|queues| - 1], b);
      assert Heads([]) == [];
    }
  }

  ghost predicate AllSettled(handed: seq<nat>, queues: seq<Queue>) {
    forall b: nat :: Fates(queues, b) == multiset(handed)[b]
  }

  ghost predicate Inv(s: State) {
    Bat.Inv(s.bat) && AllSettled(s.bat.handed, s.queues)
  }

  /** One entry: the buffer it takes, if any, gets exactly one more fate. */
  lemma StepFate(q: Queue, pit: Pit, take: Take, b: nat)
    ensures FateOf(Step(q, pit, take), b) == FateOf(q, b) + HeadTaken(pit, take)[b]
  {
    hide HeadTaken, Held, StepPit, Settled;
    var r := StepPit(q.info, pit, take);
    StepConserves(q.info, pit, take);
    SettledSplit(q.events, r.events);
    assert (Held(q.info) + HeadTaken(pit, take))[b] == (Settled(r.events) + Held(r.info))[b];
    assert (Settled(q.events) + Settled(r.events))[b] == Settled(q.events)[b] + Settled(r.events)[b];
  }

  /** The ring hands up the buffer the entry takes, and no other step hands up any. */
  lemma HandedByEntry(s: Bat.State, pit: Pit, fits: bool, page: Take, b: nat)
    requires Bat.Shape(s)
    ensures multiset(RingAfter(s, pit, fits).handed)[b] ==
            multiset(s.handed)[b] + HeadTaken(pit, TakeOf(s, pit, fits, page))[b]
  {
  }

  lemma HandedByOthers(s: Bat.State, act: Bat.Action)
    requires Bat.Shape(s) && !act.Take?
    ensures Bat.Apply(s, act).handed == s.handed
  {
  }

  /** The ring after an entry was processed. */
  ghost function RingAfter(bat: Bat.State, pit: Pit, fits: bool): (t: Bat.State)
    requires Bat.Shape(bat)
    ensures Bat.Shape(t) && t.n == bat.n
  {
    if pit.IsHead() then Bat.Apply(bat, Bat.Take(pit.BufferId(), fits)) else bat
  }

  lemma EntrySettles(bat: Bat.State, queues: seq<Queue>, q: nat, pit: Pit, fits: bool, page: Take)
    requires Bat.Shape(bat) && AllSettled(bat.handed, queues) && q < |queues|
    ensures AllSettled(RingAfter(bat, pit, fits).handed,
                       queues[q := Step(queues[q], pit, TakeOf(bat, pit, fits, page))])
  {
    var take := TakeOf(bat, pit, fits, page);
    hide FateOf, Step, HeadTaken, TakeOf, Fates, RingAfter;
    forall b: nat
      ensures Fates(queues[q := Step(queues[q], pit, take)], b) == multiset(RingAfter(bat, pit, fits).handed)[b]
    {
      FatesUpdate(queues, q, Step(queues[q], pit, take), b);
      StepFate(queues[q], pit, take, b);
      HandedByEntry(bat, pit, fits, page, b);
      assert Fates(queues, b) == multiset(bat.handed)[b];
    }
  }

  lemma EntryInv(s: State, a: Action)
    requires Inv(s) && a.Entry? && a.q < |s.queues|
    ensures Inv(Apply(s, a))
  {
    Bat.ApplyInv(s.bat, Bat.Take(a.pit.BufferId(), a.fits));
    EntrySettles(s.bat, s.queues, a.q, a.pit, a.fits, a.page);
    hide Bat.Inv, Bat.Apply, AllSettled, Step, TakeOf, Pit.IsHead, Pit.BufferId;
  }

  /** Over any run of the ring's threads and any entry streams of the queues, every
      buffer a ring slot gave away has exactly one fate in exactly one queue. */
  lemma {:induction false} RunInv(n: RingSize, queues: nat, acts: seq<Action>)
    ensures Inv(Run(Init(n, queues), acts))
  {
    if acts == [] {
      Bat.InitInv(n);
      forall b: nat ensures Fates(Init(n, queues).queues, b) == 0 {
        NoFates(Init(n, queues).queues, b);
      }
    } else {
      var k := |acts| - 1;
      RunInv(n, queues, acts[..k]);
      var s := Run(Init(n, queues), acts[..k]);
      match acts[k] {
        case RingStep(act) =>
          if !act.Take? {
            Bat.ApplyInv(s.bat, act);
            HandedByOthers(s.bat, act);
          }
        case Entry(q, pit, fits, page) =>
          if q < |s.queues| {
            EntryInv(s, acts[k]);
          }
      }
      hide Bat.Apply, Bat.Inv, Fates;
    }
  }

  // ----- from the buffer ring to the stack -----

  lemma FateLowerBound(q: Queue, i: nat)
    requires i < |q.events|
    ensures FateOf(q, HeadOf(q.events[i])) >= 1
  {
    assert Heads(q.events)[i] == HeadOf(q.events[i]);
    assert HeadOf(q.events[i]) in multiset(Heads(q.events));
  }

  lemma FateTwice(q: Queue, i: nat, j: nat)
    requires i < j < |q.events| && HeadOf(q.events[i]) == HeadOf(q.events[j])
    ensures FateOf(q, HeadOf(q.events[i])) >= 2
  {
    TwiceCounts(Heads(q.events), i, j);
  }

  lemma FateAtMostOnce(s: State, b: nat)
    requires Inv(s)
    ensures Fates(s.queues, b) <= 1
    ensures Fates(s.queues, b) == 1 <==> b in s.bat.handed
  {
    AtMostOnce(s.bat.handed, b);
    assert Fates(s.queues, b) == multiset(s.bat.handed)[b];
  }

  /** No buffer is delivered, freed or overwritten twice, not by one queue and not by
      two. */
  lemma OneFateEach(n: RingSize, queues: nat, acts: seq<Action>, q: nat, i: nat, r: nat, j: nat)
    requires q < queues && r < queues && (q < r || (q == r && i < j))
    requires var s := Run(Init(n, queues), acts); i < |s.queues[q].events| && j < |s.queues[r].events|
    ensures var s := Run(Init(n, queues), acts);
            HeadOf(s.queues[q].events[i]) != HeadOf(s.queues[r].events[j])
  {
    RunInv(n, queues, acts);
    var s := Run(Init(n, queues), acts);
    hide Run, Inv, FateOf;
    var b := HeadOf(s.queues[q].events[i]);
    FateAtMostOnce(s, b);
    if HeadOf(s.queues[r].events[j]) == b {
      FateLowerBound(s.queues[q], i);
      FateLowerBound(s.queues[r], j);
      if q == r {
        FateTwice(s.queues[q], i, j);
        FatesUpdate(s.queues, q, s.queues[q], b);
      } else {
        FatesOfTwo(s.queues, q, r, b);
      }
    }
  }

  /** And none is lost on the way: every buffer ever allocated is recorded by a ring
      slot, or has its one fate or is being built, never both. */
  lemma NothingLost(n: RingSize, queues: nat, acts: seq<Action>, b: nat)
    ensures var s := Run(Init(n, queues), acts);
            b < s.bat.nextSkb ==>
              (Fates(s.queues, b) == 1 <==> Bat.Holds(b) !in s.bat.slots)
  {
    RunInv(n, queues, acts);
    var s := Run(Init(n, queues), acts);
    hide Run;
    FateAtMostOnce(s, b);
    if b < s.bat.nextSkb {
      assert Bat.Accounted(s.bat.slots, s.bat.handed, b);
    }
  }
}
