/** The modem state machine and its command engine (src/t7xx_state_monitor.c:107-151,
    183-221, 262-305, 318-521, 600-648): commands are reference counted and shared by
    the queue, the handling thread and waiters that may time out at any moment. */
module Fsm {
  import opened Errno

  datatype FsmState = FsmInit | PreStart | Starting | Ready | Exception | Stopping | Stopped

  /** FSM_CMD_*; Other stands for any value the main thread does not know. */
  datatype CmdId = CmdStart | CmdException | CmdPreStop | CmdStop | CmdOther

  // device stages (bits 2:0 of the status word)
  const STAGE_INIT := 0
  const STAGE_BROM_PRE := 1
  const STAGE_BROM_POST := 2
  const STAGE_LK := 3
  const STAGE_LINUX := 4

  // ----- commands -----

  datatype Place = Queued | Handling | Finished

  /** struct t7xx_fsm_command; finishes and outcome record how it was finished. */
  datatype Command = Command(
    cmdId: CmdId, flag: nat, refcnt: int, waiting: bool, place: Place, completed: bool,
    finishes: nat, outcome: int)
  {
    predicate WantsWait() { flag % 2 == 1 }
  }

  /** The reference count is one, plus one until finished, plus one while the waiter
      is there; so nobody ever holds a released command. */
  predicate RefOk(c: Command) {
    && c.refcnt == 1 + (if c.place.Finished? then 0 else 1) + (if c.waiting then 1 else 0)
    && c.finishes == (if c.place.Finished? then 1 else 0)
    && (c.completed <==> c.place.Finished? && c.WantsWait())
    && (c.waiting ==> c.WantsWait())
  }

  /** t7xx_fsm_append_cmd up to the queueing: kref_init, then a reference for the
      waiter, then one for the queue. */
  function Created(cmdId: CmdId, flag: nat): Command {
    Command(cmdId, flag, if flag % 2 == 1 then 3 else 2, flag % 2 == 1, Queued, false, 0, 0)
  }

  /** fsm_finish_command */
  function Finish(c: Command, result: int): Command {
    c.(refcnt := c.refcnt - 1, place := Finished, completed := c.WantsWait(),
       finishes := c.finishes + 1, outcome := result)
  }

  /** The waiter goes, completed or timed out. */
  function Leave(c: Command): Command {
    c.(refcnt := c.refcnt - 1, waiting := false)
  }

  /** Every command is in exactly one place: in the queue once, in the hands of the
      main thread, or finished. */
  ghost predicate CmdsOk(cmds: seq<Command>, queue: seq<nat>, current: int) {
    && -1 <= current < |cmds|
    && (forall i :: 0 <= i < |cmds| ==> RefOk(cmds[i]))
    && (forall k :: 0 <= k < |queue| ==> queue[k] < |cmds| && cmds[queue[k]].place.Queued?)
    && (forall j, k :: 0 <= j < k < |queue| ==> queue[j] != queue[k])
    && (forall i :: 0 <= i < |cmds| && cmds[i].place.Queued? ==> i in queue)
    && (forall i :: 0 <= i < |cmds| ==> (cmds[i].place.Handling? <==> i == current))
  }

  /** What may happen to commands: new ones appear, a finished one stays finished
      with its outcome, a waiter does not come back. */
  predicate Grows(a: seq<Command>, b: seq<Command>) {
    && |a| <= |b|
    && forall i :: 0 <= i < |a| ==>
         && b[i].cmdId == a[i].cmdId && b[i].flag == a[i].flag
         && (a[i].place.Finished? ==> b[i].place.Finished? && b[i].outcome == a[i].outcome)
         && (b[i].waiting ==> a[i].waiting)
         && a[i].finishes <= b[i].finishes
  }

  /** Each command of an earlier queue is finished or still in its place. */
  predicate Serves(before: seq<nat>, cmds: seq<Command>, queue: seq<nat>) {
    forall k :: 0 <= k < |before| ==>
      || (before[k] < |cmds| && cmds[before[k]].place.Finished?)
      || (k < |queue| && queue[k] == before[k])
  }

  lemma ServesTrans(q0: seq<nat>, c1: seq<Command>, q1: seq<nat>, c2: seq<Command>, q2: seq<nat>)
    requires Serves(q0, c1, q1) && Serves(q1, c2, q2) && Grows(c1, c2)
    ensures Serves(q0, c2, q2)
  {
  }

  lemma ServesPrefix(q0: seq<nat>, cmds: seq<Command>, q1: seq<nat>)
    requires q0 <= q1
    ensures Serves(q0, cmds, q1)
  {
  }

  // ----- state traces -----

  /** One assignment to curr_state, with the command being handled and the device
      stage the handler acts on (STAGE_INIT where it acts on none). */
  datatype Visit = Visit(state: FsmState, cause: CmdId, flag: nat, stage: nat)

  predicate Edge(from: FsmState, v: Visit) {
    match v.state
    case FsmInit => false
    case PreStart => v.cause.CmdStart? && (from.FsmInit? || from.PreStart? || from.Stopped?)
    case Starting => v.cause.CmdStart? && v.flag != 0 && v.stage == STAGE_LINUX && from.PreStart?
    case Ready => v.cause.CmdStart? && v.flag != 0 && v.stage == STAGE_LINUX && from.Starting?
    case Exception =>
      || (v.cause.CmdStart? && v.stage == STAGE_LINUX && from.Starting?)
      || (v.cause.CmdException? && from.Ready?)
    case Stopping => v.cause.CmdPreStop? && !from.Stopping? && !from.Stopped?
    case Stopped =>
      (v.cause.CmdPreStop? && (from.Stopping? || from.Stopped?)) || v.cause.CmdStop?
  }

  ghost predicate Legal(trace: seq<Visit>) {
    && trace != [] && trace[0].state == FsmInit
    && forall i :: 0 < i < |trace| ==> Edge(trace[i - 1].state, trace[i])
  }

  predicate AtBoundary(s: FsmState) {
    s.FsmInit? || s.PreStart? || s.Ready? || s.Exception? || s.Stopped?
  }

  lemma LegalSnoc(trace: seq<Visit>, v: Visit)
    requires Legal(trace) && Edge(trace[|trace| - 1].state, v)
    ensures Legal(trace + [v])
  {
    var t := trace + [v];
    forall i | 0 < i < |t| ensures Edge(t[i - 1].state, t[i]) {
      if i < |trace| {
        assert t[i - 1] == trace[i - 1] && t[i] == trace[i];
      }
    }
  }

  /** From READY on, nothing but READY's successors until STOPPED. */
  lemma {:induction false} AfterReady(trace: seq<Visit>, i: nat, j: nat)
    requires Legal(trace) && i < j < |trace| && trace[i].state.Ready?
    requires forall k :: i < k < j ==> !trace[k].state.Stopped?
    ensures trace[j].state.Exception? || trace[j].state.Stopping? || trace[j].state.Stopped?
    decreases j
  {
    if j > i + 1 {
      AfterReady(trace, i, j - 1);
    }
    assert Edge(trace[j - 1].state, trace[j]);
  }

  /** Any two entries to READY are separated by STOPPED. */
  lemma ReadySeparated(trace: seq<Visit>, i: nat, j: nat)
    requires Legal(trace) && i < j < |trace| && trace[i].state.Ready? && trace[j].state.Ready?
    ensures exists k :: i < k < j && trace[k].state.Stopped?
  {
    if forall k :: i < k < j ==> !trace[k].state.Stopped? {
      AfterReady(trace, i, j);
      assert false;
    }
  }

  /** EXCEPTION is left only through a stop command. */
  lemma ExceptionLeftByStop(trace: seq<Visit>, i: nat)
    requires Legal(trace) && i + 1 < |trace| && trace[i].state.Exception?
    ensures trace[i + 1].cause.CmdPreStop? || trace[i + 1].cause.CmdStop?
    ensures trace[i + 1].state.Stopping? || trace[i + 1].state.Stopped?
  {
    assert Edge(trace[i].state, trace[i + 1]);
  }

  /** READY is entered only while handling a START command with a non-zero flag in the
      LINUX stage, two
      steps after PRE_START. */
  lemma ReadyOrigin(trace: seq<Visit>, i: nat)
    requires Legal(trace) && i < |trace| && trace[i].state.Ready?
    ensures i >= 3 && trace[i].cause.CmdStart? && trace[i].flag != 0 && trace[i].stage == STAGE_LINUX
    ensures trace[i - 1].state.Starting? && trace[i - 2].state.PreStart?
  {
    assert i > 0 && Edge(trace[i - 1].state, trace[i]);
    assert i > 1 && Edge(trace[i - 2].state, trace[i - 1]);
    assert i > 2 && Edge(trace[i - 3].state, trace[i - 2]);
  }

  ghost predicate ReadyApart(trace: seq<Visit>) {
    forall i, j :: 0 <= i < j < |trace| && trace[i].state.Ready? && trace[j].state.Ready? ==>
      exists k :: i < k < j && trace[k].state.Stopped?
  }

  predicate LeftByStop(trace: seq<Visit>) {
    forall i :: 0 <= i < |trace| - 1 && trace[i].state.Exception? ==>
      trace[i + 1].cause.CmdPreStop? || trace[i + 1].cause.CmdStop?
  }

  predicate ReadyEarned(trace: seq<Visit>) {
    forall i :: 0 <= i < |trace| && trace[i].state.Ready? ==>
      i >= 3 && trace[i].cause.CmdStart? && trace[i].flag != 0 && trace[i].stage == STAGE_LINUX
      && trace[i - 1].state.Starting? && trace[i - 2].state.PreStart?
  }

  lemma LegalHistory(trace: seq<Visit>)
    requires Legal(trace)
    ensures ReadyApart(trace) && LeftByStop(trace) && ReadyEarned(trace)
  {
    forall i, j | 0 <= i < j < |trace| && trace[i].state.Ready? && trace[j].state.Ready?
      ensures exists k :: i < k < j && trace[k].state.Stopped?
    {
      ReadySeparated(trace, i, j);
    }
    forall i | 0 <= i < |trace| - 1 && trace[i].state.Exception?
      ensures trace[i + 1].cause.CmdPreStop? || trace[i + 1].cause.CmdStop?
    {
      ExceptionLeftByStop(trace, i);
    }
    forall i | 0 <= i < |trace| && trace[i].state.Ready?
      ensures i >= 3 && trace[i].cause.CmdStart? && trace[i].flag != 0 && trace[i].stage == STAGE_LINUX
      ensures trace[i - 1].state.Starting? && trace[i - 2].state.PreStart?
    {
      ReadyOrigin(trace, i);
    }
  }

  // ----- steps on commands -----

  lemma GrowsTrans(a: seq<Command>, b: seq<Command>, c: seq<Command>)
    requires Grows(a, b) && Grows(b, c)
    ensures Grows(a, c)
  {
  }

  lemma AppendOk(cmds: seq<Command>, queue: seq<nat>, current: int, cmdId: CmdId, flag: nat)
    requires CmdsOk(cmds, queue, current)
    ensures CmdsOk(cmds + [Created(cmdId, flag)], queue + [|cmds|], current)
    ensures Grows(cmds, cmds + [Created(cmdId, flag)])
  {
    var all, q := cmds + [Created(cmdId, flag)], queue + [|cmds|];
    forall i | 0 <= i < |all| && all[i].place.Queued? ensures i in q {
      if i == |cmds| {
        assert q[|queue|] == i;
      } else {
        assert all[i] == cmds[i] && i in queue;
      }
    }
  }

  lemma LeaveOk(cmds: seq<Command>, queue: seq<nat>, current: int, id: nat)
    requires CmdsOk(cmds, queue, current) && id < |cmds| && cmds[id].waiting
    ensures CmdsOk(cmds[id := Leave(cmds[id])], queue, current)
    ensures Grows(cmds, cmds[id := Leave(cmds[id])]) && Leave(cmds[id]).refcnt >= 1
  {
  }

  lemma TakeOk(cmds: seq<Command>, queue: seq<nat>)
    requires CmdsOk(cmds, queue, -1) && queue != []
    ensures var id := queue[0];
            var after := cmds[id := cmds[id].(place := Handling)];
            CmdsOk(after, queue[1..], id) && Grows(cmds, after)
  {
    var id := queue[0];
    var after := cmds[id := cmds[id].(place := Handling)];
    forall i | 0 <= i < |after| && after[i].place.Queued? ensures i in queue[1..] {
      assert i in queue && i != id;
      var k :| 0 <= k < |queue| && queue[k] == i;
      assert queue[1..][k - 1] == i;
    }
  }

  /** Finishing the command being handled; it is not released by it. */
  lemma FinishCurrentOk(cmds: seq<Command>, queue: seq<nat>, id: nat, result: int)
    requires CmdsOk(cmds, queue, id)
    ensures CmdsOk(cmds[id := Finish(cmds[id], result)], queue, -1)
    ensures Grows(cmds, cmds[id := Finish(cmds[id], result)])
    ensures Finish(cmds[id], result).refcnt >= 1
  {
  }

  /** One turn of the flush: the first queued command is unlinked and finished. */
  lemma FlushTurnOk(cmds: seq<Command>, queue: seq<nat>, current: int, result: int)
    requires CmdsOk(cmds, queue, current) && queue != []
    ensures var id := queue[0];
            var after := cmds[id := Finish(cmds[id], result)];
            CmdsOk(after, queue[1..], current) && Grows(cmds, after) && after[id].refcnt >= 1
  {
    var id := queue[0];
    var after := cmds[id := Finish(cmds[id], result)];
    assert cmds[id].place.Queued?;
    forall i | 0 <= i < |after| && after[i].place.Queued? ensures i in queue[1..] {
      assert i in queue && i != id;
      var k :| 0 <= k < |queue| && queue[k] == i;
      assert queue[1..][k - 1] == i;
    }
  }

  // ----- the environment -----

  /** What other threads do while the main thread sleeps or runs unlocked code. */
  datatype Ext = ExtAppend(cmdId: CmdId, flag: nat, gotCmd: bool) | ExtLeave(id: nat)

  /** Answers one command handler gets. */
  datatype Answer = Answer(
    early: seq<Ext>,       // activity before the handler acts
    late: seq<Ext>,        // activity during its sleep or handshake wait
    status: nat,           // the last status word the device stage poll read
    gotCmd: bool,          // memory for a command it appends itself
    mdReady: bool,         // handshake with the modem done
    apReady: bool,         // handshake with the AP done
    stopping: seq<Ext>,    // activity between entering STOPPED and the flush
    stopped: seq<Ext>,     // activity between the flush and the end of the reset
    fastboot: bool,        // device mode is FASTBOOT_DOWNLOAD or FASTBOOT_DUMP
    coreReset: int)        // result of the core reset

  datatype Step = Step(between: seq<Ext>, answer: Answer)

  predicate MayStart(s: FsmState) {
    s.FsmInit? || s.PreStart? || s.Stopped?
  }

  /** wait_for_expected_dev_stage succeeds for these two stages only. */
  predicate StageSeen(a: Answer) {
    a.status % 8 == STAGE_LINUX || a.status % 8 == STAGE_LK
  }

  /** The stage switch is entered. */
  predicate Acts(a: Answer, status: nat, flag: nat) {
    a.status != status || flag != 0
  }

  /** An early boot stage makes the switch append another START. */
  predicate AsksAgain(a: Answer, status: nat, flag: nat) {
    Acts(a, status, flag) && a.status % 8 in {STAGE_INIT, STAGE_BROM_PRE, STAGE_BROM_POST}
  }

  /** A START command gets as far as the handshake. */
  predicate Handshakes(a: Answer, status: nat, flag: nat) {
    Acts(a, status, flag) && a.status % 8 == STAGE_LINUX && flag != 0
  }

  function StateAfterStart(s: FsmState, a: Answer, status: nat, flag: nat): FsmState {
    if !MayStart(s) then s
    else if Handshakes(a, status, flag) then
      if a.mdReady && a.apReady then Ready else Exception
    else PreStart
  }

  /** The state a command leaves behind. */
  function StateAfter(s: FsmState, cmdId: CmdId, flag: nat, status: nat, a: Answer): FsmState {
    match cmdId
    case CmdStart => StateAfterStart(s, a, status, flag)
    case CmdException => if s.Ready? then Exception else s
    case CmdPreStop => Stopped
    case CmdStop => Stopped
    case CmdOther => s
  }

  /** The state a command leaves, by the command, the state before and the device's
      answer alone. */
  lemma StateAfterExact(s: FsmState, flag: nat, status: nat, a: Answer)
    ensures s in {FsmInit, PreStart, Stopped} ==>
              StateAfter(s, CmdStart, flag, status, a) ==
              if a.status % 8 != STAGE_LINUX || flag == 0 then PreStart
              else if a.mdReady && a.apReady then Ready else Exception
    ensures s !in {FsmInit, PreStart, Stopped} ==> StateAfter(s, CmdStart, flag, status, a) == s
    ensures StateAfter(s, CmdException, flag, status, a) == if s == Ready then Exception else s
    ensures StateAfter(s, CmdPreStop, flag, status, a) == StateAfter(s, CmdStop, flag, status, a) == Stopped
    ensures StateAfter(s, CmdOther, flag, status, a) == s
  {
  }

  // the values curr_state takes while a command is handled

  function StopVisits(cause: CmdId, flag: nat, a: Answer): seq<Visit> {
    [Visit(Stopped, cause, flag, STAGE_INIT)] + if a.fastboot then [] else [Visit(Stopped, cause, flag, STAGE_INIT)]
  }

  function StartingVisits(flag: nat, a: Answer): seq<Visit> {
    [Visit(Starting, CmdStart, flag, a.status % 8),
     Visit(if a.mdReady && a.apReady then Ready else Exception, CmdStart, flag, a.status % 8)]
  }

  function StartVisits(s: FsmState, flag: nat, status: nat, a: Answer): seq<Visit> {
    if !MayStart(s) then []
    else [Visit(PreStart, CmdStart, flag, STAGE_INIT)] + if Handshakes(a, status, flag) then StartingVisits(flag, a) else []
  }

  function Visits(s: FsmState, cmdId: CmdId, flag: nat, status: nat, a: Answer): seq<Visit> {
    match cmdId
    case CmdStart => StartVisits(s, flag, status, a)
    case CmdException => if s.Ready? then [Visit(Exception, CmdException, flag, STAGE_INIT)] else []
    case CmdPreStop =>
      if s.Stopped? then []
      else [Visit(Stopping, CmdPreStop, flag, STAGE_INIT)] + StopVisits(CmdPreStop, flag, a)
    case CmdStop => if s.Stopped? then [] else StopVisits(CmdStop, flag, a)
    case CmdOther => []
  }

  class FsmCtl {
    var currState: FsmState
    var status: nat
    var commandQueue: seq<nat>
    var cmds: seq<Command>       // every command ever appended
    ghost var current: int       // the command in the main thread's hands, or -1
    ghost var trace: seq<Visit>  // every value curr_state was given

    ghost predicate CmdsValid()
      reads this`cmds, this`commandQueue, this`current
    {
      CmdsOk(cmds, commandQueue, current)
    }

    ghost predicate TraceValid()
      reads this`trace, this`currState
    {
      Legal(trace) && trace[|trace| - 1].state == currState
    }

    ghost predicate Valid()
      reads this
    {
      CmdsValid() && TraceValid() && current == -1 && AtBoundary(currState)
    }

    /** t7xx_fsm_init */
    constructor ()
      ensures Valid() && currState == FsmInit && commandQueue == [] && cmds == [] && status == STAGE_INIT
      ensures trace == [Visit(FsmInit, CmdOther, 0, STAGE_INIT)]
    {
      currState, status, commandQueue, cmds := FsmInit, STAGE_INIT, [], [];
      current := -1;
      trace := [Visit(FsmInit, CmdOther, 0, STAGE_INIT)];
    }

    // ----- other threads -----

    /** t7xx_fsm_append_cmd up to the wait. */
    method AppendCmd(cmdId: CmdId, flag: nat, gotCmd: bool) returns (ret: int, id: nat)
      requires CmdsValid()
      modifies this`cmds, this`commandQueue
      ensures CmdsValid() && Grows(old(cmds), cmds)
      ensures ret == if gotCmd then 0 else -ENOMEM
      ensures gotCmd ==> id == |old(cmds)| && cmds == old(cmds) + [Created(cmdId, flag)]
      ensures gotCmd ==> commandQueue == old(commandQueue) + [id]
      ensures gotCmd ==> id < |cmds| && cmds[id].cmdId == cmdId && cmds[id].flag == flag && cmds[id].place == Queued
      ensures gotCmd ==> (cmds[id].waiting <==> flag % 2 == 1) && cmds[id].refcnt == (if flag % 2 == 1 then 3 else 2)
      ensures !gotCmd ==> cmds == old(cmds) && commandQueue == old(commandQueue)
    {
      ret, id := 0, 0;
      if !gotCmd {
        GrowsRefl(cmds);
        return -ENOMEM, 0;
      }
      AppendOk(cmds, commandQueue, current, cmdId, flag);
      var refcnt := 1;
      if flag % 2 == 1 {
        refcnt := refcnt + 1;
      }
      refcnt := refcnt + 1;
      id := |cmds|;
      cmds := cmds + [Command(cmdId, flag, refcnt, flag % 2 == 1, Queued, false, 0, 0)];
      commandQueue := commandQueue + [id];
    }

    /** The end of a wait in t7xx_fsm_append_cmd, in time or not: the waiter reads the
        result if the command completed, and drops its reference. */
    method WaiterLeaves(id: nat) returns (ret: int)
      requires CmdsValid() && id < |cmds| && cmds[id].waiting
      modifies this`cmds
      ensures CmdsValid() && Grows(old(cmds), cmds) && cmds == old(cmds)[id := Leave(old(cmds)[id])]
      ensures ret == if old(cmds)[id].place.Finished? then old(cmds)[id].outcome else -ETIMEDOUT
      ensures cmds[id].refcnt == old(cmds)[id].refcnt - 1 >= 1 && !cmds[id].waiting
    {
      LeaveOk(cmds, commandQueue, current, id);
      var c := cmds[id];
      ret := if c.completed then c.outcome else -ETIMEDOUT;
      cmds := cmds[id := c.(waiting := false, refcnt := c.refcnt - 1)];
    }

    method Others(acts: seq<Ext>)
      requires CmdsValid()
      modifies this`cmds, this`commandQueue
      ensures CmdsValid() && Grows(old(cmds), cmds) && old(commandQueue) <= commandQueue
    {
      hide CmdsOk, RefOk;
      var i := 0;
      while i < |acts|
        invariant 0 <= i <= |acts| && CmdsValid() && Grows(old(cmds), cmds) && old(commandQueue) <= commandQueue
      {
        ghost var before := cmds;
        match acts[i] {
          case ExtAppend(cmdId, flag, gotCmd) =>
            var _, _ := AppendCmd(cmdId, flag, gotCmd);
            GrowsTrans(old(cmds), before, cmds);
          case ExtLeave(id) =>
            if id < |cmds| && cmds[id].waiting {
              var _ := WaiterLeaves(id);
              GrowsTrans(old(cmds), before, cmds);
            }
        }
        i := i + 1;
      }
    }

    // ----- main thread -----

    method Enter(state: FsmState, ghost cause: CmdId, ghost flag: nat, ghost stage: nat)
      requires TraceValid() && Edge(currState, Visit(state, cause, flag, stage))
      modifies this`currState, this`trace
      ensures TraceValid() && currState == state && trace == old(trace) + [Visit(state, cause, flag, stage)]
    {
      LegalSnoc(trace, Visit(state, cause, flag, stage));
      currState := state;
      trace := trace + [Visit(state, cause, flag, stage)];
    }

    /** fsm_finish_command on the command being handled. */
    method FinishCurrent(id: nat, result: int)
      requires CmdsValid() && current == id
      modifies this`cmds, this`current
      ensures CmdsValid() && current == -1 && Grows(old(cmds), cmds)
      ensures id < |cmds| && cmds == old(cmds)[id := Finish(old(cmds)[id], result)]
      ensures cmds[id].place.Finished? && cmds[id].outcome == result && cmds[id].refcnt >= 1
    {
      FinishCurrentOk(cmds, commandQueue, id, result);
      var c := cmds[id];
      if c.WantsWait() {
        c := c.(completed := true);
      }
      c := c.(outcome := result, place := Finished, finishes := c.finishes + 1);
      cmds := cmds[id := c.(refcnt := c.refcnt - 1)];
      current := -1;
      assert cmds == old(cmds)[id := Finish(old(cmds)[id], result)];
    }

    /** fsm_flush_event_cmd_qs: every queued command is finished with -EINVAL. */
    method FlushCmdQueue()
      requires CmdsValid()
      modifies this`cmds, this`commandQueue
      ensures CmdsValid() && Grows(old(cmds), cmds) && commandQueue == [] && |cmds| == |old(cmds)|
      ensures FirstDone(old(commandQueue), |old(commandQueue)|, cmds)
      ensures forall i :: 0 <= i < |cmds| ==>
                cmds[i] == if old(cmds)[i].place.Queued? then Finish(old(cmds)[i], -EINVAL) else old(cmds)[i]
    {
      ghost var was := cmds;
      while commandQueue != []
        invariant CmdsValid() && Grows(was, cmds) && |cmds| == |was|
        invariant forall i :: 0 <= i < |cmds| ==>
                    cmds[i] == was[i] || (was[i].place.Queued? && cmds[i] == Finish(was[i], -EINVAL))
        decreases |commandQueue|
      {
        FlushTurnOk(cmds, commandQueue, current, -EINVAL);
        ghost var before := cmds;
        var id := commandQueue[0];
        commandQueue := commandQueue[1..];
        var c := cmds[id];
        cmds := cmds[id := c.(refcnt := c.refcnt - 1, place := Finished, completed := c.WantsWait(),
                              finishes := c.finishes + 1, outcome := -EINVAL)];
        GrowsTrans(was, before, cmds);
      }
    }

    /** fsm_stopped_handler, with t7xx_md_reset. Every command queued before is
        finished; what is appended after the flush stays queued. */
    method StoppedHandler(a: Answer, ghost cause: CmdId, ghost flag: nat) returns (ret: int)
      requires CmdsValid() && TraceValid()
      requires (cause.CmdPreStop? && currState.Stopping?) || cause.CmdStop?
      modifies this`currState, this`trace, this`cmds, this`commandQueue, this`status
      ensures CmdsValid() && TraceValid() && Grows(old(cmds), cmds)
      ensures Serves(old(commandQueue), cmds, commandQueue)
      ensures currState == Stopped && ret == (if a.fastboot then 0 else a.coreReset)
      ensures trace == old(trace) + StopVisits(cause, flag, a)
      ensures !a.fastboot ==> FirstDone(old(commandQueue), |old(commandQueue)|, cmds) && status == STAGE_INIT
      ensures a.fastboot ==> commandQueue == old(commandQueue) && cmds == old(cmds) && status == old(status)
    {
      hide CmdsOk, RefOk, Legal;
      Enter(Stopped, cause, flag, STAGE_INIT);
      if a.fastboot {
        return 0;
      }
      ghost var m0, q0 := cmds, commandQueue;
      Others(a.stopping);
      ghost var m1, q1 := cmds, commandQueue;
      FlushCmdQueue();
      ghost var m2, q2 := cmds, commandQueue;
      Enter(Stopped, cause, flag, STAGE_INIT);
      status := STAGE_INIT;
      Others(a.stopped);
      FlushServes(q0, m0, q1, m1, q2, m2, cmds);
      ret := a.coreReset;
    }

    /** fsm_routine_stopped */
    method RoutineStopped(id: nat, a: Answer)
      requires CmdsValid() && TraceValid() && current == id && cmds[id].cmdId.CmdStop? && AtBoundary(currState)
      modifies this
      ensures Valid() && Grows(old(cmds), cmds) && currState == Stopped
      ensures Serves(old(commandQueue), cmds, commandQueue)
      ensures trace == old(trace) + Visits(old(currState), CmdStop, old(cmds)[id].flag, old(status), a)
      ensures cmds[id].place.Finished? && cmds[id].outcome == if old(currState).Stopped? then -EINVAL
                                                          else if a.fastboot then 0 else a.coreReset
    {
      var flag := cmds[id].flag;
      hide CmdsOk, RefOk;
      ghost var was := cmds;
      if currState == Stopped {
        FinishCurrent(id, -EINVAL);
        return;
      }
      var ret := StoppedHandler(a, CmdStop, flag);
      ghost var mid := cmds;
      FinishCurrent(id, ret);
      GrowsTrans(was, mid, cmds);
    }

    /** fsm_routine_stopping */
    method RoutineStopping(id: nat, a: Answer)
      requires CmdsValid() && TraceValid() && current == id && cmds[id].cmdId.CmdPreStop? && AtBoundary(currState)
      modifies this
      ensures Valid() && Grows(old(cmds), cmds) && currState == Stopped
      ensures Serves(old(commandQueue), cmds, commandQueue)
      ensures trace == old(trace) + Visits(old(currState), CmdPreStop, old(cmds)[id].flag, old(status), a)
      ensures cmds[id].place.Finished? && cmds[id].outcome == if old(currState).Stopped? then -EINVAL
                                                          else if a.fastboot then 0 else a.coreReset
    {
      var flag := cmds[id].flag;
      hide CmdsOk, RefOk;
      ghost var was := cmds;
      if currState == Stopped || currState == Stopping {
        FinishCurrent(id, -EINVAL);
        return;
      }
      Enter(Stopping, CmdPreStop, flag, STAGE_INIT);
      Others(a.late);
      ghost var m1 := cmds;
      var ret := StoppedHandler(a, CmdPreStop, flag);
      ghost var m2 := cmds;
      FinishCurrent(id, ret);
      GrowsTrans(was, m1, m2);
      GrowsTrans(was, m2, cmds);
    }

    /** fsm_routine_exception for a command. */
    method RoutineException(id: nat, a: Answer)
      requires CmdsValid() && TraceValid() && current == id && cmds[id].cmdId.CmdException? && AtBoundary(currState)
      modifies this
      ensures Valid() && Grows(old(cmds), cmds) && old(commandQueue) <= commandQueue
      ensures currState == if old(currState).Ready? then Exception else old(currState)
      ensures status == old(status)
      ensures trace == old(trace) + Visits(old(currState), CmdException, old(cmds)[id].flag, old(status), a)
      ensures cmds[id].place.Finished? && cmds[id].outcome == if old(currState).Ready? then 0 else -EINVAL
    {
      var flag := cmds[id].flag;
      hide CmdsOk, RefOk;
      ghost var was := cmds;
      if currState != Ready && currState != Starting {
        FinishCurrent(id, -EINVAL);
        return;
      }
      Enter(Exception, CmdException, flag, STAGE_INIT);
      Others(a.late);
      ghost var mid := cmds;
      FinishCurrent(id, 0);
      GrowsTrans(was, mid, cmds);
    }

    /** fsm_routine_starting, fsm_routine_ready and the exception on a failed handshake. */
    method RoutineStarting(a: Answer, ghost flag: nat) returns (ret: int)
      requires CmdsValid() && TraceValid() && currState.PreStart? && flag != 0 && a.status % 8 == STAGE_LINUX
      modifies this`currState, this`trace, this`cmds, this`commandQueue
      ensures CmdsValid() && TraceValid() && Grows(old(cmds), cmds) && old(commandQueue) <= commandQueue
      ensures ret == if a.mdReady && a.apReady then 0 else -ETIMEDOUT
      ensures currState == (if a.mdReady && a.apReady then Ready else Exception)
      ensures trace == old(trace) + StartingVisits(flag, a)
    {
      hide CmdsOk, RefOk;
      Enter(Starting, CmdStart, flag, a.status % 8);
      Others(a.late);
      if !a.mdReady {
        Enter(Exception, CmdStart, flag, a.status % 8);
        return -ETIMEDOUT;
      } else if !a.apReady {
        Enter(Exception, CmdStart, flag, a.status % 8);
        return -ETIMEDOUT;
      }
      Enter(Ready, CmdStart, flag, a.status % 8);
      ret := 0;
    }

    /** The stage switch of fsm_routine_start. Its first arm is never reached from
        there, because the poll succeeds for the stages LK and LINUX only. */
    method BootStage(a: Answer, flag: nat) returns (ret: int)
      requires CmdsValid() && TraceValid() && currState.PreStart?
      modifies this`currState, this`trace, this`cmds, this`commandQueue, this`status
      ensures CmdsValid() && TraceValid() && Grows(old(cmds), cmds) && old(commandQueue) <= commandQueue
      ensures currState == StateAfterStart(PreStart, a, old(status), flag)
      ensures currState == if a.status % 8 != STAGE_LINUX || flag == 0 then PreStart
                           else if a.mdReady && a.apReady then Ready else Exception
      ensures ret == if AsksAgain(a, old(status), flag) && !a.gotCmd then -ENOMEM
                     else if currState.Exception? then -ETIMEDOUT else 0
      ensures AsksAgain(a, old(status), flag) <==>
                (a.status != old(status) || flag != 0) && a.status % 8 in {STAGE_INIT, STAGE_BROM_PRE, STAGE_BROM_POST}
      ensures status == a.status
      ensures trace == old(trace) + if Handshakes(a, old(status), flag) then StartingVisits(flag, a) else []
      ensures AsksAgain(a, old(status), flag) && a.gotCmd ==>
                cmds == old(cmds) + [Created(CmdStart, 0)] && commandQueue == old(commandQueue) + [|old(cmds)|]
    {
      hide CmdsOk, RefOk;
      ret := 0;
      GrowsRefl(cmds);
      if a.status != status || flag != 0 {
        var stage := a.status % 8;
        if stage == STAGE_INIT || stage == STAGE_BROM_PRE || stage == STAGE_BROM_POST {
          var id;
          ret, id := AppendCmd(CmdStart, 0, a.gotCmd);
        } else if stage == STAGE_LINUX && flag != 0 {
          ret := RoutineStarting(a, flag);
        }
        status := a.status;
      }
    }

    /** fsm_routine_start between the state check and the finish. */
    method Boot(a: Answer, flag: nat) returns (ret: int)
      requires CmdsValid() && TraceValid() && MayStart(currState)
      modifies this`currState, this`trace, this`cmds, this`commandQueue, this`status
      ensures CmdsValid() && TraceValid() && Grows(old(cmds), cmds) && old(commandQueue) <= commandQueue
      ensures currState == StateAfterStart(old(currState), a, old(status), flag)
      ensures currState == if a.status % 8 != STAGE_LINUX || flag == 0 then PreStart
                           else if a.mdReady && a.apReady then Ready else Exception
      ensures ret == if a.status % 8 != STAGE_LINUX && a.status % 8 != STAGE_LK then -ETIMEDOUT
                     else if currState.Exception? then -ETIMEDOUT else 0
      ensures status == if a.status % 8 == STAGE_LINUX || a.status % 8 == STAGE_LK then a.status else old(status)
      ensures trace == old(trace) + StartVisits(old(currState), flag, old(status), a)
    {
      hide CmdsOk, RefOk, Legal;
      Enter(PreStart, CmdStart, flag, STAGE_INIT);
      ghost var m0 := cmds;
      Others(a.early);
      ghost var m1 := cmds;
      if !StageSeen(a) {
        return -ETIMEDOUT;
      }
      ret := BootStage(a, flag);
      GrowsTrans(m0, m1, cmds);
    }

    /** fsm_routine_start */
    method RoutineStart(id: nat, a: Answer)
      requires CmdsValid() && TraceValid() && current == id && cmds[id].cmdId.CmdStart? && AtBoundary(currState)
      modifies this
      ensures Valid() && Grows(old(cmds), cmds) && cmds[id].place.Finished? && old(commandQueue) <= commandQueue
      ensures currState == StateAfterStart(old(currState), a, old(status), old(cmds)[id].flag)
      // from INIT, PRE_START and STOPPED: only the LINUX stage with a flag starts the
      // handshake, and its outcome decides
      ensures old(currState) in {FsmInit, PreStart, Stopped} ==>
                && (currState == Ready <==>
                    a.status % 8 == STAGE_LINUX && old(cmds)[id].flag != 0 && a.mdReady && a.apReady)
                && (currState == Exception <==>
                    a.status % 8 == STAGE_LINUX && old(cmds)[id].flag != 0 && !(a.mdReady && a.apReady))
                && (currState == PreStart <==> a.status % 8 != STAGE_LINUX || old(cmds)[id].flag == 0)
                && status == (if a.status % 8 == STAGE_LINUX || a.status % 8 == STAGE_LK then a.status else old(status))
                && cmds[id].outcome == (if a.status % 8 != STAGE_LINUX && a.status % 8 != STAGE_LK then -ETIMEDOUT
                                        else if currState == Exception then -ETIMEDOUT else 0)
      // from any other state nothing happens
      ensures old(currState) !in {FsmInit, PreStart, Stopped} ==>
                currState == old(currState) && status == old(status) && cmds[id].outcome == -EINVAL
      ensures trace == old(trace) + Visits(old(currState), CmdStart, old(cmds)[id].flag, old(status), a)
    {
      var flag := cmds[id].flag;
      hide CmdsOk, RefOk, Legal;
      ghost var was := cmds;
      if currState != FsmInit && currState != PreStart && currState != Stopped {
        FinishCurrent(id, -EINVAL);
        return;
      }
      var ret := Boot(a, flag);
      ghost var mid := cmds;
      FinishCurrent(id, ret);
      GrowsTrans(was, mid, cmds);
    }

    /** The switch of fsm_main_thread: the command it takes is finished when it is
        done, whatever happens meanwhile. */
    method HandleFirst(a: Answer) returns (ghost id: nat)
      requires Valid() && commandQueue != []
      modifies this
      ensures Valid() && Grows(old(cmds), cmds) && id == old(commandQueue)[0] < |old(cmds)| <= |cmds|
      ensures cmds[id].place.Finished?
      ensures Serves(old(commandQueue)[1..], cmds, commandQueue)
      ensures currState == StateAfter(old(currState), old(cmds)[id].cmdId, old(cmds)[id].flag, old(status), a)
      ensures trace == old(trace) + Visits(old(currState), old(cmds)[id].cmdId, old(cmds)[id].flag, old(status), a)
    {
      TakeOk(cmds, commandQueue);
      hide CmdsOk, RefOk;
      ghost var was := cmds;
      var cmd := commandQueue[0];
      id := cmd;
      commandQueue := commandQueue[1..];
      cmds := cmds[cmd := cmds[cmd].(place := Handling)];
      current := cmd;
      ghost var taken := cmds;
      match cmds[cmd].cmdId {
        case CmdStart => RoutineStart(cmd, a);
        case CmdException => RoutineException(cmd, a);
        case CmdPreStop => RoutineStopping(cmd, a);
        case CmdStop => RoutineStopped(cmd, a);
        case CmdOther =>
          FinishCurrent(cmd, -EINVAL);
          ghost var mid := cmds;
          FlushCmdQueue();
          GrowsTrans(taken, mid, cmds);
      }
      GrowsTrans(was, taken, cmds);
    }

    /** fsm_main_thread over any script of other threads' activity and answers. The
        command at place k of the queue is finished after k + 1 turns at the latest. */
    method MainThread(script: seq<Step>)
      requires Valid()
      modifies this
      ensures Valid() && Grows(old(cmds), cmds)
      ensures FirstDone(old(commandQueue), |script|, cmds)
      ensures old(trace) <= trace
    {
      hide CmdsOk, RefOk, Legal, Grows, Serves, FirstDone, Visits;
      var i := 0;
      GrowsRefl(cmds);
      ServesRefl(cmds, commandQueue);
      while i < |script|
        invariant 0 <= i <= |script| && Valid() && Grows(old(cmds), cmds)
        invariant Serves(Rest(old(commandQueue), i), cmds, commandQueue)
        invariant FirstDone(old(commandQueue), i, cmds) && old(trace) <= trace
      {
        ghost var m0, q0 := cmds, commandQueue;
        Others(script[i].between);
        ghost var m1, q1 := cmds, commandQueue;
        GrowsTrans(old(cmds), m0, m1);
        GrowsRefl(m1);
        if commandQueue != [] {
          var _ := HandleFirst(script[i].answer);
          GrowsTrans(old(cmds), m1, cmds);
        }
        TurnServes(old(commandQueue), i, m0, q0, m1, q1, cmds, commandQueue);
        i := i + 1;
      }
    }

    /** t7xx_fsm_uninit: after the thread has stopped, every command is finished. */
    method Uninit()
      requires Valid()
      modifies this`cmds, this`commandQueue
      ensures Valid() && Grows(old(cmds), cmds) && commandQueue == []
      ensures forall i :: 0 <= i < |cmds| ==> cmds[i].place.Finished? && cmds[i].finishes == 1
    {
      FlushCmdQueue();
    }
  }

  /** One life of the engine, for any script: what the recorded history of curr_state
      and the commands satisfy at its end. */
  method Life(script: seq<Step>) returns (ctl: FsmCtl)
    ensures fresh(ctl) && ctl.Valid() && ctl.trace[0].state == FsmInit
    ensures ReadyApart(ctl.trace) && LeftByStop(ctl.trace) && ReadyEarned(ctl.trace)
    ensures forall i :: 0 <= i < |ctl.cmds| ==>
              && ctl.cmds[i].place.Finished? && ctl.cmds[i].finishes == 1
              && ctl.cmds[i].refcnt == 1 + if ctl.cmds[i].waiting then 1 else 0
  {
    ctl := new FsmCtl();
    ctl.MainThread(script);
    LegalHistory(ctl.trace);
    hide Legal, ReadyApart, LeftByStop, ReadyEarned;
    ctl.Uninit();
  }

  /** What is left of a queue after some turns. */
  function Rest(queue: seq<nat>, i: nat): seq<nat> {
    if i <= |queue| then queue[i..] else []
  }

  /** The first k commands of a queue are finished. */
  predicate FirstDone(queue: seq<nat>, k: nat, cmds: seq<Command>) {
    forall j :: 0 <= j < |queue| && j < k ==> queue[j] < |cmds| && cmds[queue[j]].place.Finished?
  }

  /** Appends, a flush, more appends: what was queued before is finished. */
  lemma FlushServes(q0: seq<nat>, m0: seq<Command>, q1: seq<nat>, m1: seq<Command>, q2: seq<nat>, m2: seq<Command>,
                    m3: seq<Command>)
    requires q0 <= q1 && Grows(m0, m1) && Grows(m1, m2) && Grows(m2, m3) && FirstDone(q1, |q1|, m2)
    ensures Grows(m0, m3) && FirstDone(q0, |q0|, m3) && forall q :: Serves(q0, m3, q)
  {
    forall j | 0 <= j < |q0| ensures q0[j] < |m3| && m3[q0[j]].place.Finished? {
      assert q1[j] == q0[j];
    }
  }

  lemma ServesRefl(cmds: seq<Command>, queue: seq<nat>)
    ensures Serves(Rest(queue, 0), cmds, queue) && FirstDone(queue, 0, cmds)
  {
  }

  /** One turn: others append, then the command at the head, if any, is handled. */
  lemma TurnServes(queue: seq<nat>, i: nat, c0: seq<Command>, q0: seq<nat>, c1: seq<Command>, q1: seq<nat>,
                   c2: seq<Command>, q2: seq<nat>)
    requires Serves(Rest(queue, i), c0, q0) && FirstDone(queue, i, c0)
    requires q0 <= q1 && Grows(c0, c1) && Grows(c1, c2)
    requires q1 == [] ==> c2 == c1
    requires q1 != [] ==> Serves(q1[1..], c2, q2) && q1[0] < |c2| && c2[q1[0]].place.Finished?
    ensures Serves(Rest(queue, i + 1), c2, q2) && FirstDone(queue, i + 1, c2)
  {
    var due := Rest(queue, i);
    ServesPrefix(q0, c1, q1);
    ServesTrans(due, c0, q0, c1, q1);
    ServesTail(due, c1, q1, c2, q2);
    if i < |queue| {
      assert due[0] == queue[i] && due[1..] == Rest(queue, i + 1);
    }
  }

  /** The first command of the queue finished, the others as they stood. */
  lemma ServesTail(due: seq<nat>, c1: seq<Command>, q1: seq<nat>, c2: seq<Command>, q2: seq<nat>)
    requires Serves(due, c1, q1) && Grows(c1, c2)
    requires q1 == [] ==> c2 == c1
    requires q1 != [] ==> Serves(q1[1..], c2, q2) && q1[0] < |c2| && c2[q1[0]].place.Finished?
    ensures due != [] ==> due[0] < |c2| && c2[due[0]].place.Finished? && Serves(due[1..], c2, q2)
  {
    forall k | 0 <= k < |due| - 1 && k + 1 < |q1| && q1[k + 1] == due[k + 1] ensures q1[1..][k] == due[1..][k] {}
  }

  lemma GrowsRefl(a: seq<Command>)
    ensures Grows(a, a)
  {
  }
}
