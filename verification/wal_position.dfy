/** The reported WAL position. The receive loop compares and writes it in separate locked sections,
    and a second goroutine reads it at any time in between. */
module WalPosition {
  import opened BulkData
  import opened Pipeline
  import Replication
  import BatcherSpec

  datatype Wire = Keepalive(walEnd: nat) | XLogData(walStart: nat, data: Bytes)

  /** Where the receive loop stands with the message it received last. */
  datatype Stage =
    | Waiting                              // done with it
    | Unprocessed(walStart: nat, data: Bytes)  // before `process`
    | Unread(target: nat)                  // before the locked read
    | Compared(target: nat, seen: nat)     // between the locked read and the locked write

  datatype Report = Report(position: nat, received: nat, processed: nat)

  datatype State = State(pos: nat, stage: Stage, received: seq<Wire>, processed: seq<Bytes>, reports: seq<Report>)

  datatype Action = Receive(m: Wire) | Process | ReadPosition | WritePosition | ReadForReport

  predicate Enabled(s: State, a: Action) {
    match a
    case Receive(_) => s.stage.Waiting?
    case Process => s.stage.Unprocessed?
    case ReadPosition => s.stage.Unread?
    case WritePosition => s.stage.Compared?
    case ReadForReport => true
  }

  /** Steps that are not enabled change nothing. */
  function Step(s: State, a: Action): State {
    match (a, s.stage)
    case (Receive(m), Waiting) =>
      s.(received := s.received + [m],
         stage := match m case Keepalive(end) => Unread(end) case XLogData(start, data) => Unprocessed(start, data))
    case (Process, Unprocessed(start, data)) =>
      s.(processed := s.processed + [data], stage := Unread(start))
    case (ReadPosition, Unread(target)) =>
      s.(stage := Compared(target, s.pos))
    case (WritePosition, Compared(target, seen)) =>
      if target > seen then s.(pos := target, stage := Waiting) else s.(stage := Waiting)
    case (ReadForReport, _) =>
      s.(reports := s.reports + [Report(s.pos, |s.received|, |s.processed|)])
    case _ => s
  }

  function After(init: nat, run: seq<Action>): State {
    if run == [] then State(init, Waiting, [], [], []) else Step(After(init, Front(run)), Last(run))
  }

  predicate Reachable(init: nat, run: seq<Action>) {
    run == [] || (Reachable(init, Front(run)) && Enabled(After(init, Front(run)), Last(run)))
  }

  // Reference readings of the received messages.

  function PositionOf(m: Wire): nat {
    match m
    case Keepalive(end) => end
    case XLogData(start, _) => start
  }

  /** The largest position among the initial one and the messages. */
  function HighWater(init: nat, messages: seq<Wire>): nat {
    if messages == [] then init
    else
      var before, last := HighWater(init, Front(messages)), PositionOf(Last(messages));
      if last > before then last else before
  }

  function Payloads(messages: seq<Wire>): seq<Bytes> {
    if messages == [] then []
    else if Last(messages).XLogData? then Payloads(Front(messages)) + [Last(messages).data]
    else Payloads(Front(messages))
  }

  /** It is the maximum: an upper bound that is the initial position or one of the messages'. */
  lemma {:induction false} HighWaterIsMaximum(init: nat, messages: seq<Wire>)
    ensures HighWater(init, messages) >= init
    ensures forall i :: 0 <= i < |messages| ==> PositionOf(messages[i]) <= HighWater(init, messages)
    ensures
      || HighWater(init, messages) == init
      || exists i :: 0 <= i < |messages| && PositionOf(messages[i]) == HighWater(init, messages)
  {
    if messages != [] {
      HighWaterIsMaximum(init, Front(messages));
      if HighWater(init, messages) == HighWater(init, Front(messages)) != init {
        var i :| 0 <= i < |Front(messages)| && PositionOf(Front(messages)[i]) == HighWater(init, messages);
        assert messages[i] == Front(messages)[i];
      } else {
        assert messages[|messages| - 1] == Last(messages);
      }
    }
  }

  /** The messages whose position is already written: all, or all but the one in hand. */
  function Settled(s: State): seq<Wire> {
    if s.stage.Waiting? || s.received == [] then s.received else Front(s.received)
  }

  ghost predicate Inv(init: nat, s: State) {
    && s.pos == HighWater(init, Settled(s))
    && (!s.stage.Waiting? ==> s.received != [])
    && match s.stage
       case Waiting => s.processed == Payloads(s.received)
       case Unprocessed(start, data) =>
         Last(s.received) == XLogData(start, data) && s.processed == Payloads(Front(s.received))
       case Unread(target) =>
         PositionOf(Last(s.received)) == target && s.processed == Payloads(s.received)
       case Compared(target, seen) =>
         seen == s.pos && PositionOf(Last(s.received)) == target && s.processed == Payloads(s.received)
  }

  lemma StepKeepsInv(init: nat, s: State, a: Action)
    requires Inv(init, s) && Enabled(s, a)
    ensures Inv(init, Step(s, a)) && s.pos <= Step(s, a).pos
  {
    if a.Receive? {
      assert Front(s.received + [a.m]) == s.received;
    }
  }

  lemma {:induction false} InvHolds(init: nat, run: seq<Action>)
    requires Reachable(init, run)
    ensures Inv(init, After(init, run))
  {
    if run != [] {
      InvHolds(init, Front(run));
      StepKeepsInv(init, After(init, Front(run)), Last(run));
    }
  }

  /** Between messages the position is the maximum of the initial one and of all messages received
      so far, although compare and write are separate locked sections; while a message is in hand it
      is the maximum without that message. */
  lemma PositionIsHighWater(init: nat, run: seq<Action>)
    requires Reachable(init, run)
    ensures var s := After(init, run);
      if s.stage.Waiting? then s.pos == HighWater(init, s.received)
      else s.received != [] && s.pos == HighWater(init, Front(s.received))
  {
    InvHolds(init, run);
  }

  /** The position never moves back. */
  lemma {:induction false} PositionNeverDecreases(init: nat, before: seq<Action>, more: seq<Action>)
    requires Reachable(init, before + more)
    ensures Reachable(init, before)
    ensures After(init, before).pos <= After(init, before + more).pos
    decreases |more|
  {
    if more == [] {
      assert before + more == before;
    } else {
      assert Front(before + more) == before + Front(more);
      PositionNeverDecreases(init, before, Front(more));
      InvHolds(init, before + Front(more));
      StepKeepsInv(init, After(init, before + Front(more)), Last(more));
    }
  }

  /** Report `r` covers only processed data: its position is the maximum over the first `k` messages,
      all that had been received but perhaps the one in hand, and the data of all of these had been
      processed when it was read. */
  predicate CoversProcessed(init: nat, s: State, r: Report, k: nat) {
    && r.received - 1 <= k <= r.received <= |s.received| && r.processed <= |s.processed|
    && r.position == HighWater(init, s.received[..k])
    && Payloads(s.received[..k]) <= s.processed[..r.processed]
  }

  lemma CoverageLasts(init: nat, s: State, a: Action, r: Report, k: nat)
    requires CoversProcessed(init, s, r, k)
    ensures CoversProcessed(init, Step(s, a), r, k)
  {
    var t := Step(s, a);
    assert s.received <= t.received && s.processed <= t.processed;
    assert t.received[..k] == s.received[..k] && t.processed[..r.processed] == s.processed[..r.processed];
  }

  lemma ReadIsCovered(init: nat, s: State, r: Report)
    requires Inv(init, s) && r == Report(s.pos, |s.received|, |s.processed|)
    ensures CoversProcessed(init, s, r, |Settled(s)|)
  {
    assert s.received[..|Settled(s)|] == Settled(s);
    assert s.processed[..r.processed] == s.processed;
    if s.stage.Unread? || s.stage.Compared? {
      assert Payloads(Settled(s)) <= Payloads(s.received);
    }
  }

  /** Processed before visible: whatever interleaving, a position that is read for a status update
      stems from messages that have already been through `process`. */
  lemma {:induction false} ProcessedBeforeReported(init: nat, run: seq<Action>, n: nat) returns (k: nat)
    requires Reachable(init, run) && n < |After(init, run).reports|
    ensures CoversProcessed(init, After(init, run), After(init, run).reports[n], k)
  {
    var s := After(init, Front(run));
    if n < |s.reports| {
      k := ProcessedBeforeReported(init, Front(run), n);
      CoverageLasts(init, s, Last(run), s.reports[n], k);
    } else {
      InvHolds(init, Front(run));
      k := |Settled(s)|;
      ReadIsCovered(init, s, After(init, run).reports[n]);
    }
  }

  /** Reports never go back either, in the order in which the positions are read. */
  lemma {:induction false} ReportsNeverDecrease(init: nat, run: seq<Action>, m: nat, n: nat)
    requires Reachable(init, run) && m <= n < |After(init, run).reports|
    ensures After(init, run).reports[m].position <= After(init, run).reports[n].position
  {
    var s := After(init, Front(run));
    if n < |s.reports| {
      ReportsNeverDecrease(init, Front(run), m, n);
    } else if m < n {
      ReportIsBehind(init, Front(run), m);
    }
  }

  lemma {:induction false} ReportIsBehind(init: nat, run: seq<Action>, m: nat)
    requires Reachable(init, run) && m < |After(init, run).reports|
    ensures After(init, run).reports[m].position <= After(init, run).pos
  {
    var s := After(init, Front(run));
    InvHolds(init, Front(run));
    StepKeepsInv(init, s, Last(run));
    if m < |s.reports| {
      ReportIsBehind(init, Front(run), m);
    }
  }

  // ---- The receive loop's own steps

  /** The positions that the receive loop's events carry. */
  function Wires(events: seq<Replication.Incoming>): seq<Wire> {
    if events == [] then []
    else
      match Last(events)
      case Keepalive(end, _, _) => Wires(Front(events)) + [Keepalive(end)]
      case XLogData(start, _, _) => Wires(Front(events)) + [XLogData(start, "")]
      case _ => Wires(Front(events))
  }

  /** The loop as one goroutine ends at the same maximum. */
  lemma {:induction false} ReceiveLoopReachesHighWater(u: Replication.Setup, s: Replication.CState,
      events: seq<Replication.Incoming>, outcomes: seq<BatcherSpec.Outcome>)
    requires |outcomes| == |events| && BatcherSpec.Ok(s.p.b) && Replication.AllFit(s.relations, events)
    ensures Replication.HandleAll(u, s, events, outcomes).pos == HighWater(s.pos, Wires(events))
  {
    if events != [] {
      ReceiveLoopReachesHighWater(u, s, Front(events), Front(outcomes));
      var front := Wires(Front(events));
      if Wires(events) != front {
        assert Front(Wires(events)) == front;
      }
    }
  }

  /** The maximum at each keepalive that requests a reply, the keepalive's own position included. */
  function Replies(init: nat, events: seq<Replication.Incoming>): seq<nat> {
    if events == [] then []
    else if Last(events).Keepalive? && Last(events).reply then
      Replies(init, Front(events)) + [HighWater(init, Wires(events))]
    else Replies(init, Front(events))
  }

  /** The loop reports these positions, one for each requested reply, and no others. */
  lemma {:induction false} RepliesReportHighWater(u: Replication.Setup, s: Replication.CState,
      events: seq<Replication.Incoming>, outcomes: seq<BatcherSpec.Outcome>)
    requires |outcomes| == |events| && BatcherSpec.Ok(s.p.b) && Replication.AllFit(s.relations, events)
    ensures Replication.HandleAll(u, s, events, outcomes).reported == s.reported + Replies(s.pos, events)
  {
    if events != [] {
      RepliesReportHighWater(u, s, Front(events), Front(outcomes));
      ReceiveLoopReachesHighWater(u, s, events, outcomes);
    }
  }
}
