/** The replication connection: the transaction tracker, the message handler and the receive loop. */
module Replication {
  import opened BulkData
  import opened BatcherSpec
  import opened DocumentStore
  import opened Rows
  import opened Batching
  import opened Pipeline

  /** A pgoutput message as the parser delivers it. */
  datatype Message =
    | Unparsable
    | RelationMsg(relId: nat, rel: Relation)
    | BeginMsg
    | CommitMsg
    | InsertMsg(relId: nat, tuple: Option<Tuple>)
    | UpdateMsg(relId: nat, oldTuple: Option<Tuple>, newTuple: Option<Tuple>)
    | DeleteMsg(relId: nat, oldTuple: Option<Tuple>)
    | TruncateMsg
    | TypeMsg
    | OriginMsg
    | DecodingMsg
    | OtherMsg

  type Relations = map<nat, Relation>

  function UpdateRelations(relations: Relations, m: Message): Relations {
    if m.RelationMsg? then relations[m.relId := m.rel] else relations
  }

  /** A tuple never has more columns than its relation; `tupleToValues` panics on one that has. */
  ghost predicate MessageFits(relations: Relations, m: Message) {
    match m
    case InsertMsg(id, tuple) => id in relations ==> Fits(relations[id], tuple)
    case UpdateMsg(id, oldTuple, newTuple) =>
      id in relations ==> Fits(relations[id], oldTuple) && Fits(relations[id], newTuple)
    case DeleteMsg(id, oldTuple) => id in relations ==> Fits(relations[id], oldTuple)
    case _ => true
  }

  /** The values that identify an updated row: the old tuple's, or the new one's if it has none. */
  function KeyValues(cx: Codec, rel: Relation, oldTuple: Option<Tuple>, newTuple: Option<Tuple>): Option<Doc>
    requires Fits(rel, oldTuple) && Fits(rel, newTuple)
  {
    var key := Values(cx, rel, oldTuple);
    if key.None? || key.value == map[] then Values(cx, rel, newTuple) else key
  }

  /** The operation a row message turns into; None when the row is dropped with an error. */
  function RowData(cx: Codec, idColumn: string, relations: Relations, m: Message): Option<Data>
    requires MessageFits(relations, m)
  {
    match m
    case InsertMsg(relId, tuple) =>
      if relId !in relations then None
      else
        var values := Values(cx, relations[relId], tuple);
        var id := DocumentId(cx, idColumn, values);
        if id.None? then None else ValuesToData(cx, id.value, INDEX, values)
    case UpdateMsg(relId, oldTuple, newTuple) =>
      if relId !in relations then None
      else
        var id := DocumentId(cx, idColumn, KeyValues(cx, relations[relId], oldTuple, newTuple));
        if id.None? then None
        else ValuesToData(cx, id.value, UPDATE, Values(cx, relations[relId], newTuple))
    case DeleteMsg(relId, oldTuple) =>
      if relId !in relations then None
      else
        var id := DocumentId(cx, idColumn, Values(cx, relations[relId], oldTuple));
        if id.None? then None else Some(DeleteData(id.value))
    case _ => None
  }

  /** What the tracker is asked to do for a message. */
  function Translate(cx: Codec, idColumn: string, relations: Relations, m: Message): TxnOp
    requires MessageFits(relations, m)
  {
    match m
    case BeginMsg => Begin
    case CommitMsg => Commit
    case _ =>
      var item := RowData(cx, idColumn, relations, m);
      if item.Some? then Row(item.value) else Skip
  }

  predicate RowOf(m: Message, relId: nat) {
    || (m.InsertMsg? && m.relId == relId) || (m.UpdateMsg? && m.relId == relId) || (m.DeleteMsg? && m.relId == relId)
  }

  /** Only begins and commits end or start a transaction, only row messages of announced relations become
      rows, and everything else, an unparsable message included, asks nothing of the tracker. */
  lemma MessagesAct(cx: Codec, idColumn: string, relations: Relations, m: Message)
    requires MessageFits(relations, m)
    ensures
      var op := Translate(cx, idColumn, relations, m);
      && (op.Begin? <==> m.BeginMsg?) && (op.Commit? <==> m.CommitMsg?) && !op.Rollback?
      && (op.Row? ==> exists relId :: relId in relations && RowOf(m, relId))
  {
    if m.InsertMsg? || m.UpdateMsg? || m.DeleteMsg? {
      assert RowOf(m, m.relId);
    }
  }

  /** `txnTracker` */
  class TxnTracker {
    var adds: int

    constructor ()
      ensures adds == 0
    {
      adds := 0;
    }

    method Begin()
      modifies this
      ensures adds == 0
    {
      adds := 0;
    }

    method RecordAdd()
      modifies this
      ensures adds == old(adds) + 1
    {
      adds := adds + 1;
    }

    method Commit(b: Batcher?)
      requires b != null ==> b.Valid()
      modifies this, b
      ensures adds == 0
      ensures b != null ==> b.Valid() && b.buffer == old(b.buffer)
      ensures b != null ==> b.View() == CommitStep(old(b.View()), old(adds))
    {
      if b == null || adds == 0 {
        adds := 0;
        return;
      }
      b.CommitN(adds);
      adds := 0;
    }

    method Rollback(b: Batcher?)
      requires b != null ==> b.Valid()
      modifies this, b
      ensures adds == 0
      ensures b != null ==> b.Valid() && b.buffer.arr == old(b.buffer.arr)
      ensures b != null ==> b.View() == RollbackStep(old(b.View()), old(adds))
    {
      if b == null || adds == 0 {
        adds := 0;
        return;
      }
      b.RollbackN(adds);
      adds := 0;
    }
  }

  /** One result of waiting for the server. `sendOk` says whether a requested reply gets through. */
  datatype Incoming =
    | ContextDone
    | Timeout
    | ReceiveError
    | WalError
    | Unexpected
    | BadKeepalive
    | Keepalive(walEnd: nat, reply: bool, sendOk: bool)
    | BadXLogData
    | XLogData(walStart: nat, msg: Message, now: int)
    | OtherCopyData

  /** The receive loop returns after this event. */
  predicate Stops(e: Incoming) {
    || e.ContextDone? || e.ReceiveError? || e.WalError? || e.BadKeepalive? || e.BadXLogData?
    || (e.Keepalive? && e.reply && !e.sendOk)
  }

  /** An event that replication survives: a timeout, a message it does not expect, data it can parse, or
      a keepalive whose reply, if one is requested, gets through. */
  predicate Survivable(e: Incoming) {
    match e
    case Timeout | Unexpected | OtherCopyData | XLogData(_, _, _) => true
    case Keepalive(_, reply, sendOk) => reply ==> sendOk
    case _ => false
  }

  predicate GoesOn(events: seq<Incoming>, n: nat)
    requires n <= |events|
  {
    forall k :: 0 <= k < n ==> Survivable(events[k])
  }

  datatype CState = CState(relations: Relations, p: PState, pos: nat, reported: seq<nat>)

  datatype Setup = Setup(cx: Codec, idColumn: string, config: Config)

  function HandleMessage(u: Setup, s: CState, m: Message, now: int, o: Outcome): (r: CState)
    requires Ok(s.p.b) && MessageFits(s.relations, m)
    ensures Ok(r.p.b)
  {
    s.(relations := UpdateRelations(s.relations, m),
       p := Finish(Start(s.p, Translate(u.cx, u.idColumn, s.relations, m), u.config, now, o)))
  }

  function Handle(u: Setup, s: CState, e: Incoming, o: Outcome): (r: CState)
    requires Ok(s.p.b) && (e.XLogData? ==> MessageFits(s.relations, e.msg))
    ensures Ok(r.p.b)
  {
    match e
    case Keepalive(walEnd, reply, _) =>
      var pos := Max(s.pos, walEnd);
      s.(pos := pos, reported := if reply then s.reported + [pos] else s.reported)
    case XLogData(walStart, msg, now) =>
      HandleMessage(u, s, msg, now, o).(pos := Max(s.pos, walStart))
    case _ => s
  }

  function RelationsAfter(relations: Relations, events: seq<Incoming>): Relations {
    if events == [] then relations
    else
      var before := RelationsAfter(relations, Front(events));
      if Last(events).XLogData? then UpdateRelations(before, Last(events).msg) else before
  }

  /** The messages that data events carry. */
  function Received(events: seq<Incoming>): seq<Message> {
    if events == [] then []
    else if Last(events).XLogData? then Received(Front(events)) + [Last(events).msg]
    else Received(Front(events))
  }

  predicate Announces(m: Message, id: nat) {
    m.RelationMsg? && m.relId == id
  }

  predicate IsLatest(messages: seq<Message>, i: nat, id: nat)
    requires i < |messages|
  {
    Announces(messages[i], id) && forall j :: i < j < |messages| ==> !Announces(messages[j], id)
  }

  /** Relation `id` is known when some message announced it or it was known before, and it is as the
      latest of these messages says. */
  ghost predicate LearnedFrom(before: Relations, messages: seq<Message>, after: Relations, id: nat) {
    && (id in after <==> id in before || exists i :: 0 <= i < |messages| && Announces(messages[i], id))
    && (forall i :: 0 <= i < |messages| && IsLatest(messages, i, id) ==> id in after && after[id] == messages[i].rel)
    && ((forall i :: 0 <= i < |messages| ==> !Announces(messages[i], id)) && id in before ==>
          id in after && after[id] == before[id])
  }

  /** A relation message replaces what was announced under its id before, and nothing else. */
  lemma {:induction false} RelationsAreLearned(relations: Relations, events: seq<Incoming>, id: nat)
    ensures LearnedFrom(relations, Received(events), RelationsAfter(relations, events), id)
  {
    if events != [] {
      RelationsAreLearned(relations, Front(events), id);
      if Last(events).XLogData? {
        var front := Front(events);
        LearnOneMore(relations, Received(front), RelationsAfter(relations, front), Last(events).msg, id);
      }
    }
  }

  lemma LearnOneMore(before: Relations, messages: seq<Message>, after: Relations, m: Message, id: nat)
    requires LearnedFrom(before, messages, after, id)
    ensures LearnedFrom(before, messages + [m], UpdateRelations(after, m), id)
  {
    var more := messages + [m];
    assert more[|messages|] == m;
    assert forall i :: 0 <= i < |messages| ==> more[i] == messages[i];
    forall i | 0 <= i < |messages| && IsLatest(more, i, id)
      ensures IsLatest(messages, i, id) && !Announces(m, id)
    {
      assert !Announces(more[|messages|], id);
    }
  }

  /** Every data message fits the relations announced before it. */
  ghost predicate AllFit(relations: Relations, events: seq<Incoming>) {
    events == [] || (
      && AllFit(relations, Front(events))
      && (Last(events).XLogData? ==> MessageFits(RelationsAfter(relations, Front(events)), Last(events).msg)))
  }

  function HandleAll(u: Setup, s: CState, events: seq<Incoming>, outcomes: seq<Outcome>): (r: CState)
    requires |outcomes| == |events|
    requires Ok(s.p.b) && AllFit(s.relations, events)
    ensures Ok(r.p.b) && r.relations == RelationsAfter(s.relations, events)
  {
    if events == [] then s
    else Handle(u, HandleAll(u, s, Front(events), Front(outcomes)), Last(events), Last(outcomes))
  }

  /** Handling the events leads from `s` to `r`, and each outcome is one its send could have had. */
  ghost predicate Leads(u: Setup, s: CState, events: seq<Incoming>, outcomes: seq<Outcome>, r: CState)
    requires |outcomes| == |events| && Ok(s.p.b)
  {
    && AllFit(s.relations, events)
    && AllPossible(u, s, events, outcomes)
    && r == HandleAll(u, s, events, outcomes)
  }

  ghost predicate AllPossible(u: Setup, s: CState, events: seq<Incoming>, outcomes: seq<Outcome>)
    requires |outcomes| == |events|
    requires Ok(s.p.b) && AllFit(s.relations, events)
  {
    events == [] || (
      && AllPossible(u, s, Front(events), Front(outcomes))
      && Possible(HandleAll(u, s, Front(events), Front(outcomes)).p.b, Last(outcomes)))
  }

  class LogicalReplicationConn {
    const cx: Codec
    const idColumn: string
    const txn: TxnTracker
    const batcher: Batcher
    var relations: Relations
    var xLogPos: nat
    ghost var reported: seq<nat>  // the positions put into status updates by the receive loop

    ghost predicate Valid()
      reads this, batcher, batcher.sender, batcher.buffer.arr, batcher.sender.arrays
    {
      batcher.Valid()
    }

    ghost function Settings(): Setup {
      Setup(cx, idColumn, Config(batcher.bufferSize, batcher.flushTimeout))
    }

    ghost function View(): (s: CState)
      requires Valid()
      reads this, txn, batcher, batcher.sender, batcher.buffer.arr, batcher.sender.arrays
      ensures Ok(s.p.b) && s.p.pc == Idle
    {
      CState(relations, PState(batcher.View(), txn.adds, Idle), xLogPos, reported)
    }

    constructor (cx: Codec, idColumn: string, batcher: Batcher, serverPos: nat)
      requires batcher.Valid()
      ensures Valid() && this.batcher == batcher && this.cx == cx && this.idColumn == idColumn
      ensures fresh(txn)
      ensures View() == CState(map[], PState(batcher.View(), 0, Idle), serverPos, [])
    {
      this.cx := cx;
      this.idColumn := idColumn;
      this.batcher := batcher;
      txn := new TxnTracker();
      relations := map[];
      xLogPos := serverPos;
      reported := [];
    }

    /** `enqueueRow` */
    method EnqueueRow(item: Data, now: int) returns (ghost o: Outcome)
      requires Valid()
      modifies txn, batcher, batcher.sender, batcher.buffer.arr
      ensures Valid() && (batcher.buffer.arr == old(batcher.buffer.arr) || fresh(batcher.buffer.arr))
      ensures Possible(old(View()).p.b, o)
      ensures View() == old(View()).(p := Finish(Start(old(View()).p, Row(item), Settings().config, now, o)))
    {
      o := batcher.Add(item, now);
      txn.RecordAdd();
    }

    /** The insert case of `process`. */
    method ProcessInsert(relId: nat, tuple: Option<Tuple>, now: int) returns (ghost o: Outcome)
      requires Valid() && MessageFits(relations, InsertMsg(relId, tuple))
      modifies txn, batcher, batcher.sender, batcher.buffer.arr
      ensures Valid() && (batcher.buffer.arr == old(batcher.buffer.arr) || fresh(batcher.buffer.arr))
      ensures Possible(old(View()).p.b, o)
      ensures View() == HandleMessage(Settings(), old(View()), InsertMsg(relId, tuple), now, o)
    {
      o := Acked;
      if relId !in relations {
        return;
      }
      var values := TupleToValues(cx, relations[relId], tuple);
      var id := DocumentId(cx, idColumn, values);
      if id.None? {
        return;
      }
      var item := ValuesToData(cx, id.value, INDEX, values);
      if item.None? {
        return;
      }
      o := EnqueueRow(item.value, now);
    }

    /** The update case of `process`. */
    method ProcessUpdate(relId: nat, oldTuple: Option<Tuple>, newTuple: Option<Tuple>, now: int)
        returns (ghost o: Outcome)
      requires Valid() && MessageFits(relations, UpdateMsg(relId, oldTuple, newTuple))
      modifies txn, batcher, batcher.sender, batcher.buffer.arr
      ensures Valid() && (batcher.buffer.arr == old(batcher.buffer.arr) || fresh(batcher.buffer.arr))
      ensures Possible(old(View()).p.b, o)
      ensures View() == HandleMessage(Settings(), old(View()), UpdateMsg(relId, oldTuple, newTuple), now, o)
    {
      o := Acked;
      if relId !in relations {
        return;
      }
      var keyValues := TupleToValues(cx, relations[relId], oldTuple);
      if keyValues.None? || keyValues.value == map[] {
        keyValues := TupleToValues(cx, relations[relId], newTuple);
      }
      var id := DocumentId(cx, idColumn, keyValues);
      if id.None? {
        return;
      }
      var newValues := TupleToValues(cx, relations[relId], newTuple);
      var item := ValuesToData(cx, id.value, UPDATE, newValues);
      if item.None? {
        return;
      }
      o := EnqueueRow(item.value, now);
    }

    /** The delete case of `process`. */
    method ProcessDelete(relId: nat, oldTuple: Option<Tuple>, now: int) returns (ghost o: Outcome)
      requires Valid() && MessageFits(relations, DeleteMsg(relId, oldTuple))
      modifies txn, batcher, batcher.sender, batcher.buffer.arr
      ensures Valid() && (batcher.buffer.arr == old(batcher.buffer.arr) || fresh(batcher.buffer.arr))
      ensures Possible(old(View()).p.b, o)
      ensures View() == HandleMessage(Settings(), old(View()), DeleteMsg(relId, oldTuple), now, o)
    {
      o := Acked;
      if relId !in relations {
        return;
      }
      var values := TupleToValues(cx, relations[relId], oldTuple);
      var id := DocumentId(cx, idColumn, values);
      if id.None? {
        return;
      }
      o := EnqueueRow(DeleteData(id.value), now);
    }

    /** `process` */
    method Process(m: Message, now: int) returns (ghost o: Outcome)
      requires Valid() && MessageFits(relations, m)
      modifies this, txn, batcher, batcher.sender, batcher.buffer.arr
      ensures Valid() && (batcher.buffer.arr == old(batcher.buffer.arr) || fresh(batcher.buffer.arr))
      ensures Possible(old(View()).p.b, o)
      ensures View() == HandleMessage(Settings(), old(View()), m, now, o)
      ensures relations == if m.RelationMsg? then old(relations)[m.relId := m.rel] else old(relations)
    {
      o := Acked;
      match m {
        case RelationMsg(relId, rel) =>
          relations := relations[relId := rel];
        case BeginMsg =>
          txn.Begin();
        case CommitMsg =>
          txn.Commit(batcher);
        case InsertMsg(relId, tuple) =>
          o := ProcessInsert(relId, tuple, now);
        case UpdateMsg(relId, oldTuple, newTuple) =>
          o := ProcessUpdate(relId, oldTuple, newTuple, now);
        case DeleteMsg(relId, oldTuple) =>
          o := ProcessDelete(relId, oldTuple, now);
        case _ =>
      }
    }

    /** `sendStandbyStatusUpdate` */
    method SendStandbyStatusUpdate(sendOk: bool) returns (ok: bool)
      modifies this`reported
      ensures ok == sendOk && reported == old(reported) + [xLogPos]
    {
      var clientXLogPos := xLogPos;
      reported := reported + [clientXLogPos];
      return sendOk;
    }

    /** One round of the receive loop; `stop` when the loop returns. */
    method HandleIncoming(e: Incoming) returns (stop: bool, ghost o: Outcome)
      requires Valid() && (e.XLogData? ==> MessageFits(relations, e.msg))
      modifies this, txn, batcher, batcher.sender, batcher.buffer.arr
      ensures Valid() && (batcher.buffer.arr == old(batcher.buffer.arr) || fresh(batcher.buffer.arr))
      ensures stop == Stops(e)
      ensures Possible(old(View()).p.b, o)
      ensures View() == Handle(Settings(), old(View()), e, o)
    {
      o := Acked;
      stop := false;
      match e {
        case Keepalive(walEnd, reply, sendOk) =>
          var clientXLogPos := xLogPos;
          if walEnd > clientXLogPos {
            xLogPos := walEnd;
          }
          if reply {
            var ok := SendStandbyStatusUpdate(sendOk);
            stop := !ok;
          }
        case XLogData(walStart, msg, now) =>
          o := Process(msg, now);
          var clientXLogPos := xLogPos;
          if walStart > clientXLogPos {
            xLogPos := walStart;
          }
        case Timeout =>
        case Unexpected =>
        case OtherCopyData =>
        case _ =>
          stop := true;
      }
    }

    /** The same round, seen from the start of the loop. */
    method HandleNext(ghost start: CState, events: seq<Incoming>, n: nat, ghost outcomes: seq<Outcome>)
        returns (stop: bool, ghost o: Outcome)
      requires Valid() && Ok(start.p.b) && n < |events| && |outcomes| == n && AllFit(start.relations, events)
      requires Leads(Settings(), start, events[..n], outcomes, View())
      modifies this, txn, batcher, batcher.sender, batcher.buffer.arr
      ensures Valid() && (batcher.buffer.arr == old(batcher.buffer.arr) || fresh(batcher.buffer.arr))
      ensures stop <==> !Survivable(events[n])
      ensures Leads(Settings(), start, events[..n + 1], outcomes + [o], View())
    {
      ghost var before := View();
      NextFits(Settings(), start, events, n, outcomes, before);
      stop, o := HandleIncoming(events[n]);
      LeadsOn(Settings(), start, events, n, outcomes, before, o);
    }

    /** `readReplicationMessages`: handles events in order and stops after the first one it cannot
        go on from. */
    method ReadReplicationMessages(events: seq<Incoming>) returns (handled: nat, ghost outcomes: seq<Outcome>)
      requires Valid() && AllFit(relations, events)
      modifies this, txn, batcher, batcher.sender, batcher.buffer.arr
      ensures Valid()
      ensures handled <= |events| && |outcomes| == handled
      ensures handled > 0 ==> GoesOn(events, handled - 1)
      ensures GoesOn(events, |events|) ==> handled == |events|
      ensures handled < |events| ==> handled > 0
      ensures handled < |events| ==>
                var e := events[handled - 1];
                || e.ContextDone? || e.ReceiveError? || e.WalError? || e.BadKeepalive? || e.BadXLogData?
                || (e.Keepalive? && e.reply && !e.sendOk)
      ensures Leads(Settings(), old(View()), events[..handled], outcomes, View())
    {
      ghost var u, start := Settings(), View();
      handled, outcomes := 0, [];
      while handled < |events|
        invariant Valid() && (batcher.buffer.arr == old(batcher.buffer.arr) || fresh(batcher.buffer.arr))
        invariant handled <= |events| && |outcomes| == handled
        invariant GoesOn(events, handled)
        invariant Leads(u, start, events[..handled], outcomes, View())
      {
        var stop;
        ghost var o;
        stop, o := HandleNext(start, events, handled, outcomes);
        handled, outcomes := handled + 1, outcomes + [o];
        if stop {
          EndsLoop(events, handled - 1);
          return;
        }
        GoesOnOneMore(events, handled - 1);
      }
    }
  }

  lemma GoesOnOneMore(events: seq<Incoming>, n: nat)
    requires n < |events| && GoesOn(events, n) && Survivable(events[n])
    ensures GoesOn(events, n + 1)
  {
  }

  /** The events that end replication. */
  lemma EndsLoop(events: seq<Incoming>, n: nat)
    requires n < |events| && !Survivable(events[n])
    ensures !GoesOn(events, |events|)
    ensures
      var e := events[n];
      || e.ContextDone? || e.ReceiveError? || e.WalError? || e.BadKeepalive? || e.BadXLogData?
      || (e.Keepalive? && e.reply && !e.sendOk)
  {
  }

  lemma {:induction false} FitsUpTo(relations: Relations, events: seq<Incoming>, n: nat)
    requires AllFit(relations, events) && n <= |events|
    ensures AllFit(relations, events[..n])
  {
    if n == |events| {
      assert events[..n] == events;
    } else {
      assert Front(events)[..n] == events[..n];
      FitsUpTo(relations, Front(events), n);
    }
  }

  lemma NextFits(u: Setup, s: CState, events: seq<Incoming>, n: nat, outcomes: seq<Outcome>, r: CState)
    requires n < |events| && |outcomes| == n && Ok(s.p.b)
    requires AllFit(s.relations, events) && Leads(u, s, events[..n], outcomes, r)
    ensures AllFit(s.relations, events[..n + 1])
    ensures events[n].XLogData? ==> MessageFits(r.relations, events[n].msg)
  {
    FitsUpTo(s.relations, events, n + 1);
    assert Front(events[..n + 1]) == events[..n];
  }

  lemma LeadsOn(u: Setup, s: CState, events: seq<Incoming>, n: nat, outcomes: seq<Outcome>, r: CState, o: Outcome)
    requires n < |events| && |outcomes| == n && Ok(s.p.b) && Ok(r.p.b)
    requires AllFit(s.relations, events[..n + 1]) && Leads(u, s, events[..n], outcomes, r)
    requires Possible(r.p.b, o) && (events[n].XLogData? ==> MessageFits(r.relations, events[n].msg))
    ensures Leads(u, s, events[..n + 1], outcomes + [o], Handle(u, r, events[n], o))
  {
    assert Front(events[..n + 1]) == events[..n];
    assert Front(outcomes + [o]) == outcomes;
  }
}
