/** The replication loop and the other goroutines around one batcher, as a step machine. The
    replication goroutine's batcher call and its own counter update are separate steps, and the
    flush ticker and explicit flushes may run between them. */
module Pipeline {
  import opened BulkData
  import opened BatcherSpec

  /** What one pgoutput message asks of the transaction tracker. */
  datatype TxnOp = Begin | Row(item: Data) | Commit | Rollback | Skip

  /** Where the replication goroutine stands: between messages, after `Add` but before the row is
      counted, or after `CommitN`/`RollbackN` but before the counter is reset. */
  datatype Pc = Idle | Recording | Resetting

  datatype Config = Config(size: nat, timeout: int)

  datatype Action =
    | Deliver(op: TxnOp, at: int, outcome: Outcome)
    | Settle
    | Flush(at: int, outcome: Outcome)
    | Tick(start: int, at: int, outcome: Outcome)

  datatype PState = PState(b: State, adds: int, pc: Pc)

  function Start(s: PState, op: TxnOp, c: Config, at: int, o: Outcome): (r: PState)
    requires Ok(s.b)
    ensures Ok(r.b)
  {
    match op
    case Begin => s.(adds := 0)
    case Row(item) => s.(b := AddStep(c.size, s.b, item, o, at), pc := Recording)
    case Commit => if s.adds == 0 then s else s.(b := CommitStep(s.b, s.adds), pc := Resetting)
    case Rollback => if s.adds == 0 then s else s.(b := RollbackStep(s.b, s.adds), pc := Resetting)
    case Skip => s
  }

  function Finish(s: PState): PState {
    match s.pc
    case Idle => s
    case Recording => s.(adds := s.adds + 1, pc := Idle)
    case Resetting => s.(adds := 0, pc := Idle)
  }

  function Step(c: Config, s: PState, a: Action): (r: PState)
    requires Ok(s.b)
    ensures Ok(r.b)
  {
    match a
    case Deliver(op, at, o) => Start(s, op, c, at, o)
    case Settle => Finish(s)
    case Flush(at, o) => s.(b := FlushStep(s.b, o, at))
    case Tick(start, at, o) => s.(b := TickStep(c.timeout, s.b, start, o, at))
  }

  ghost predicate Enabled(s: PState, a: Action)
    requires Ok(s.b)
  {
    match a
    case Deliver(_, _, o) => s.pc.Idle? && Possible(s.b, o)
    case Settle => !s.pc.Idle?
    case Flush(_, o) => Possible(s.b, o)
    case Tick(_, _, o) => Possible(s.b, o)
  }

  function Front<T>(s: seq<T>): seq<T>
    requires s != []
  {
    s[..|s| - 1]
  }

  function Last<T>(s: seq<T>): T
    requires s != []
  {
    s[|s| - 1]
  }

  /** The state after a run that starts with a batcher created at `t0`. */
  function Run(c: Config, t0: int, run: seq<Action>): (s: PState)
    ensures Ok(s.b)
  {
    if run == [] then PState(State([], -1, t0, []), 0, Idle)
    else Step(c, Run(c, t0, Front(run)), Last(run))
  }

  ghost predicate Legal(c: Config, t0: int, run: seq<Action>) {
    run == [] || (Legal(c, t0, Front(run)) && Enabled(Run(c, t0, Front(run)), Last(run)))
  }

  lemma OneMoreStep(c: Config, t0: int, run: seq<Action>, a: Action)
    requires Legal(c, t0, run) && Enabled(Run(c, t0, run), a)
    ensures Legal(c, t0, run + [a]) && Run(c, t0, run + [a]) == Step(c, Run(c, t0, run), a)
    ensures Front(run + [a]) == run && Last(run + [a]) == a
  {
    assert Front(run + [a]) == run && Last(run + [a]) == a;
  }

  // Reference readings of a run, from the delivered operations alone.

  predicate Delivers(a: Action, op: TxnOp) {
    a.Deliver? && a.op == op
  }

  /** Rows delivered since the last commit or rollback. */
  function Open(run: seq<Action>): seq<Data> {
    if run == [] then []
    else
      var a := Last(run);
      if a.Deliver? && a.op.Row? then Open(Front(run)) + [a.op.item]
      else if a.Deliver? && (a.op.Commit? || a.op.Rollback?) then []
      else Open(Front(run))
  }

  /** The rows of each committed transaction, in commit order. */
  function Txns(run: seq<Action>): seq<seq<Data>> {
    if run == [] then []
    else if Delivers(Last(run), Commit) then Txns(Front(run)) + [Open(Front(run))]
    else Txns(Front(run))
  }

  /** No Begin is delivered while rows of an earlier transaction are still open. */
  predicate WellFormed(run: seq<Action>) {
    run == [] ||
    (WellFormed(Front(run)) && (Delivers(Last(run), Begin) ==> Open(Front(run)) == []))
  }

  function Flatten(txns: seq<seq<Data>>): seq<Data> {
    if txns == [] then [] else Flatten(Front(txns)) + Last(txns)
  }

  /** How many committed transactions the acknowledged sends cover. */
  function AckedTxns(c: Config, t0: int, run: seq<Action>): nat {
    if run == [] then 0
    else
      var before, after := Run(c, t0, Front(run)).b.attempts, Run(c, t0, run).b.attempts;
      if |after| > |before| && Last(after).outcome.Acked? then |Txns(run)| else AckedTxns(c, t0, Front(run))
  }

  /** The batcher's uncommitted tail and the tracker's counter agree. */
  predicate CountersAgree(s: PState)
    requires Ok(s.b)
  {
    |Tail(s.b)| == match s.pc case Idle => s.adds case Recording => s.adds + 1 case Resetting => 0
  }

  /** The first `k` transactions are acknowledged, the rest are the committed prefix, and `open`
      is the uncommitted tail. */
  predicate Splits(s: State, txns: seq<seq<Data>>, k: nat, open: seq<Data>)
    requires Ok(s)
  {
    && k <= |txns|
    && AckedRows(s.attempts) == Flatten(txns[..k])
    && Committed(s) == Flatten(txns[k..])
    && Tail(s) == open
  }

  predicate Agrees(s: PState, txns: seq<seq<Data>>, k: nat, open: seq<Data>)
    requires Ok(s.b)
  {
    Splits(s.b, txns, k, open) && CountersAgree(s)
  }

  predicate Inv(c: Config, t0: int, run: seq<Action>) {
    Agrees(Run(c, t0, run), Txns(run), AckedTxns(c, t0, run), Open(run))
  }

  lemma FlattenAppend(txns: seq<seq<Data>>, t: seq<Data>)
    ensures Flatten(txns + [t]) == Flatten(txns) + t
  {
    assert Front(txns + [t]) == txns;
  }

  lemma Glue(a: seq<Data>, b: seq<Data>, c: seq<Data>, bc: seq<Data>)
    requires bc == b + c
    ensures a + bc == (a + b) + c
  {
  }

  lemma {:induction false} FlattenSplit(a: seq<seq<Data>>, b: seq<seq<Data>>)
    ensures Flatten(a + b) == Flatten(a) + Flatten(b)
    decreases |b|
  {
    if b == [] {
      assert a + b == a;
    } else {
      FlattenSplit(a, Front(b));
      assert Front(a + b) == a + Front(b) && Last(a + b) == Last(b);
      Glue(Flatten(a), Flatten(Front(b)), Last(b), Flatten(b));
    }
  }

  predicate Sends(s: State, o: Outcome)
    requires Ok(s)
  {
    s.lastCommitted >= 0 && o.Acked?
  }

  /** What a flush does to the parts of the state. */
  lemma FlushParts(s: State, o: Outcome, now: int)
    requires Ok(s)
    ensures Tail(FlushStep(s, o, now)) == Tail(s)
    ensures Committed(FlushStep(s, o, now)) == if Sends(s, o) then [] else Committed(s)
    ensures AckedRows(FlushStep(s, o, now).attempts) ==
            AckedRows(s.attempts) + if Sends(s, o) then Committed(s) else []
  {
    if s.lastCommitted >= 0 {
      AckedRowsAppend(s.attempts, Attempt(Committed(s), o));
    }
  }

  lemma FlushKeepsSplit(s: State, txns: seq<seq<Data>>, k: nat, open: seq<Data>, o: Outcome, now: int)
      returns (k': nat)
    requires Ok(s) && Splits(s, txns, k, open)
    ensures k' == if Sends(s, o) then |txns| else k
    ensures Splits(FlushStep(s, o, now), txns, k', open)
  {
    FlushParts(s, o, now);
    k' := if Sends(s, o) then |txns| else k;
    if Sends(s, o) {
      FlattenSplit(txns[..k], txns[k..]);
      assert txns[..k] + txns[k..] == txns == txns[..|txns|];
    }
  }

  lemma PushKeepsSplit(s: State, txns: seq<seq<Data>>, k: nat, open: seq<Data>, item: Data)
    requires Ok(s) && Splits(s, txns, k, open)
    ensures Splits(s.(buffer := s.buffer + [item]), txns, k, open + [item])
  {
    var r := s.(buffer := s.buffer + [item]);
    assert Tail(r) == Tail(s) + [item];
    assert Committed(r) == Committed(s);
  }

  lemma CommitKeepsSplit(s: State, txns: seq<seq<Data>>, k: nat, open: seq<Data>)
    requires Ok(s) && Splits(s, txns, k, open)
    ensures Splits(CommitStep(s, |open|), txns + [open], k, [])
  {
    var r := CommitStep(s, |open|);
    assert Committed(r) == Committed(s) + open;
    assert (txns + [open])[k..] == txns[k..] + [open];
    assert (txns + [open])[..k] == txns[..k];
    FlattenAppend(txns[k..], open);
  }

  lemma RollbackKeepsSplit(s: State, txns: seq<seq<Data>>, k: nat, open: seq<Data>)
    requires Ok(s) && Splits(s, txns, k, open)
    ensures Splits(RollbackStep(s, |open|), txns, k, [])
  {
    assert RollbackStep(s, |open|).buffer == Committed(s);
  }

  /** What a delivered row does to the parts that the invariant is about. */
  lemma {:induction false} RowParts(c: Config, t0: int, run: seq<Action>)
    requires run != [] && Last(run).Deliver? && Last(run).op.Row?
    ensures Txns(run) == Txns(Front(run)) && Open(run) == Open(Front(run)) + [Last(run).op.item]
    ensures Run(c, t0, run) == Start(Run(c, t0, Front(run)), Last(run).op, c, Last(run).at, Last(run).outcome)
    ensures
      var s := Run(c, t0, Front(run)).b;
      AckedTxns(c, t0, run) ==
      if |s.buffer| >= c.size && Sends(s, Last(run).outcome) then |Txns(Front(run))| else AckedTxns(c, t0, Front(run))
  {
  }

  lemma AddKeepsSplit(size: nat, s: State, txns: seq<seq<Data>>, k: nat, open: seq<Data>,
                      item: Data, o: Outcome, now: int)
      returns (k': nat)
    requires Ok(s) && Splits(s, txns, k, open)
    ensures k' == if |s.buffer| >= size && Sends(s, o) then |txns| else k
    ensures Splits(AddStep(size, s, item, o, now), txns, k', open + [item])
  {
    var room := s;
    k' := k;
    if |s.buffer| >= size {
      room := FlushStep(s, o, now);
      k' := FlushKeepsSplit(s, txns, k, open, o, now);
    }
    PushKeepsSplit(room, txns, k', open, item);
    assert AddStep(size, s, item, o, now) == room.(buffer := room.buffer + [item]);
  }

  lemma {:induction false} RowKeepsInv(c: Config, t0: int, run: seq<Action>)
    requires run != [] && Last(run).Deliver? && Last(run).op.Row?
    requires Inv(c, t0, Front(run)) && Run(c, t0, Front(run)).pc.Idle?
    ensures Inv(c, t0, run)
  {
    var front, a := Front(run), Last(run);
    RowParts(c, t0, run);
    var s, k := Run(c, t0, front), AckedTxns(c, t0, front);
    var k' := RowAgrees(c, s, Txns(front), k, Open(front), a.op.item, a.outcome, a.at);
  }

  lemma RowAgrees(c: Config, s: PState, txns: seq<seq<Data>>, k: nat, open: seq<Data>, item: Data, o: Outcome, now: int)
      returns (k': nat)
    requires Ok(s.b) && Agrees(s, txns, k, open) && s.pc.Idle?
    ensures k' == if |s.b.buffer| >= c.size && Sends(s.b, o) then |txns| else k
    ensures Agrees(Start(s, Row(item), c, now, o), txns, k', open + [item])
  {
    k' := AddKeepsSplit(c.size, s.b, txns, k, open, item, o, now);
  }

  /** What a delivered commit or rollback does to the parts that the invariant is about. */
  lemma {:induction false} EndParts(c: Config, t0: int, run: seq<Action>)
    requires run != [] && Last(run).Deliver? && (Last(run).op.Commit? || Last(run).op.Rollback?)
    ensures Txns(run) == if Last(run).op.Commit? then Txns(Front(run)) + [Open(Front(run))] else Txns(Front(run))
    ensures Open(run) == [] && AckedTxns(c, t0, run) == AckedTxns(c, t0, Front(run))
    ensures Run(c, t0, run) == Start(Run(c, t0, Front(run)), Last(run).op, c, Last(run).at, Last(run).outcome)
  {
  }

  lemma EndAgrees(c: Config, s: PState, txns: seq<seq<Data>>, k: nat, open: seq<Data>, op: TxnOp, o: Outcome, now: int)
    requires Ok(s.b) && Agrees(s, txns, k, open) && s.pc.Idle? && (op.Commit? || op.Rollback?)
    ensures Agrees(Start(s, op, c, now, o), if op.Commit? then txns + [open] else txns, k, [])
  {
    if op.Commit? {
      CommitKeepsSplit(s.b, txns, k, open);
    } else {
      RollbackKeepsSplit(s.b, txns, k, open);
    }
  }

  lemma {:induction false} EndKeepsInv(c: Config, t0: int, run: seq<Action>)
    requires run != [] && Last(run).Deliver? && (Last(run).op.Commit? || Last(run).op.Rollback?)
    requires Inv(c, t0, Front(run)) && Run(c, t0, Front(run)).pc.Idle?
    ensures Inv(c, t0, run)
  {
    var front, a := Front(run), Last(run);
    EndParts(c, t0, run);
    EndAgrees(c, Run(c, t0, front), Txns(front), AckedTxns(c, t0, front), Open(front), a.op, a.outcome, a.at);
  }

  lemma {:induction false} QuietKeepsInv(c: Config, t0: int, run: seq<Action>)
    requires run != [] && (Last(run).Settle? || Delivers(Last(run), Begin) || Delivers(Last(run), Skip))
    requires Inv(c, t0, Front(run)) && Enabled(Run(c, t0, Front(run)), Last(run))
    requires Delivers(Last(run), Begin) ==> Open(Front(run)) == []
    ensures Inv(c, t0, run)
  {
  }

  /** How a flush, and a step without attempt, move the count of acknowledged transactions. */
  lemma {:induction false} FlushAcks(c: Config, t0: int, run: seq<Action>, o: Outcome, now: int)
    requires run != [] && Run(c, t0, run).b == FlushStep(Run(c, t0, Front(run)).b, o, now)
    ensures AckedTxns(c, t0, run) ==
            if Sends(Run(c, t0, Front(run)).b, o) then |Txns(run)| else AckedTxns(c, t0, Front(run))
  {
    var before, after := Run(c, t0, Front(run)).b, Run(c, t0, run).b;
    if before.lastCommitted >= 0 {
      assert after.attempts == before.attempts + [Attempt(Committed(before), o)];
      assert Last(after.attempts).outcome == o;
    }
  }

  lemma {:induction false} NoAttemptNoAck(c: Config, t0: int, run: seq<Action>)
    requires run != [] && Run(c, t0, run).b.attempts == Run(c, t0, Front(run)).b.attempts
    ensures AckedTxns(c, t0, run) == AckedTxns(c, t0, Front(run))
  {
  }

  lemma {:induction false} SendKeepsInv(c: Config, t0: int, run: seq<Action>)
    requires run != [] && (Last(run).Flush? || Last(run).Tick?) && Inv(c, t0, Front(run))
    ensures Inv(c, t0, run)
  {
    var front, a := Front(run), Last(run);
    var s, r := Run(c, t0, front), Run(c, t0, run);
    if r == s {
      NoAttemptNoAck(c, t0, run);
    } else {
      FlushAcks(c, t0, run, a.outcome, a.at);
      var k' := FlushAgrees(s, Txns(front), AckedTxns(c, t0, front), Open(front), a.outcome, a.at);
      assert r == s.(b := FlushStep(s.b, a.outcome, a.at));
    }
  }

  lemma FlushAgrees(s: PState, txns: seq<seq<Data>>, k: nat, open: seq<Data>, o: Outcome, now: int)
      returns (k': nat)
    requires Ok(s.b) && Agrees(s, txns, k, open)
    ensures k' == if Sends(s.b, o) then |txns| else k
    ensures Agrees(s.(b := FlushStep(s.b, o, now)), txns, k', open)
  {
    k' := FlushKeepsSplit(s.b, txns, k, open, o, now);
  }

  lemma {:induction false} InvHolds(c: Config, t0: int, run: seq<Action>)
    requires Legal(c, t0, run) && WellFormed(run)
    ensures Inv(c, t0, run)
  {
    if run != [] {
      InvHolds(c, t0, Front(run));
      match Last(run)
      case Flush(_, _) => SendKeepsInv(c, t0, run);
      case Tick(_, _, _) => SendKeepsInv(c, t0, run);
      case Settle => QuietKeepsInv(c, t0, run);
      case Deliver(op, _, _) =>
        if op.Row? {
          RowKeepsInv(c, t0, run);
        } else if op.Commit? || op.Rollback? {
          EndKeepsInv(c, t0, run);
        } else {
          QuietKeepsInv(c, t0, run);
        }
    }
  }
}
