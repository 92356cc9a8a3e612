/** What holds in every state of every interleaving: transactions stay whole, rows are conserved
    in order, retries converge and the buffer stays bounded. */
module Transactions {
  import opened BulkData
  import opened BatcherSpec
  import opened DocumentStore
  import opened Pipeline

  // ---- Conservation

  /** Acknowledged rows followed by the buffer are exactly the rows of the committed transactions
      followed by the open one, in delivery order; the pointer splits the buffer between them. */
  ghost predicate Conserved(s: State, txns: seq<seq<Data>>, open: seq<Data>)
    requires Ok(s)
  {
    && AckedRows(s.attempts) + s.buffer == Flatten(txns) + open
    && AckedRows(s.attempts) + Committed(s) == Flatten(txns)
  }

  lemma SplitConserves(s: State, txns: seq<seq<Data>>, k: nat, open: seq<Data>)
    requires Ok(s) && Splits(s, txns, k, open)
    ensures Conserved(s, txns, open)
  {
    FlattenSplit(txns[..k], txns[k..]);
    assert txns[..k] + txns[k..] == txns;
    Glue(AckedRows(s.attempts), Committed(s), Tail(s), s.buffer);
  }

  lemma {:induction false} RowsAreConserved(c: Config, t0: int, run: seq<Action>)
    requires Legal(c, t0, run) && WellFormed(run)
    ensures Conserved(Run(c, t0, run).b, Txns(run), Open(run))
  {
    InvHolds(c, t0, run);
    SplitConserves(Run(c, t0, run).b, Txns(run), AckedTxns(c, t0, run), Open(run));
  }

  /** The two counters agree in every state of a run exactly when no Begin arrives while rows of an
      earlier transaction are still open. */
  lemma {:induction false} CountersAgreeIff(c: Config, t0: int, run: seq<Action>)
    requires Legal(c, t0, run)
    ensures (forall k :: 0 <= k <= |run| ==> CountersAgree(Run(c, t0, run[..k]))) <==> WellFormed(run)
  {
    assert run[..|run|] == run;
    if run != [] {
      var front := Front(run);
      CountersAgreeIff(c, t0, front);
      assert forall k :: 0 <= k < |run| ==> front[..k] == run[..k];
      if WellFormed(front) {
        InvHolds(c, t0, front);
        if WellFormed(run) {
          InvHolds(c, t0, run);
        } else {
          assert !CountersAgree(Run(c, t0, run[..|run|]));
        }
      }
    }
  }

  /** A rolled-back transaction leaves nothing behind: neither the buffer nor anything sent holds
      one of its rows, and what was committed before is untouched. */
  lemma {:induction false} RollbackErasesTransaction(c: Config, t0: int, before: seq<Action>,
                                                     during: seq<Action>, end: Action)
    requires Legal(c, t0, before + during + [end]) && WellFormed(before + during + [end])
    requires Open(before) == [] && Delivers(end, Rollback)
    requires forall a :: a in during ==> !Delivers(a, Commit)
    ensures
      var s := Run(c, t0, before + during + [end]).b;
      AckedRows(s.attempts) + s.buffer == Flatten(Txns(before)) == AckedRows(s.attempts) + Committed(s)
  {
    var run := before + during + [end];
    RowsAreConserved(c, t0, run);
    assert Front(run) == before + during;
    NoCommitKeepsTxns(before, during);
  }

  lemma {:induction false} NoCommitKeepsTxns(before: seq<Action>, during: seq<Action>)
    requires forall a :: a in during ==> !Delivers(a, Commit)
    ensures Txns(before + during) == Txns(before)
    decreases |during|
  {
    if during == [] {
      assert before + during == before;
    } else {
      assert Front(before + during) == before + Front(during);
      assert Last(during) in during;
      NoCommitKeepsTxns(before, Front(during));
    }
  }

  // ---- Atomicity

  /** Attempt `m` carries whole consecutive transactions, from the oldest unacknowledged one on. */
  ghost predicate WholeTxns(attempts: seq<Attempt>, m: nat, txns: seq<seq<Data>>)
    requires m < |attempts|
  {
    exists i, j :: 0 <= i <= j <= |txns| && CarriesTxns(attempts, m, txns, i, j)
  }

  predicate CarriesTxns(attempts: seq<Attempt>, m: nat, txns: seq<seq<Data>>, i: nat, j: nat)
    requires m < |attempts| && i <= j <= |txns|
  {
    && AckedRows(attempts[..m]) == Flatten(txns[..i])
    && attempts[m].payload == Flatten(txns[i..j])
  }

  /** Every payload ever given to the sender, whether it was acknowledged or not, is the rows of
      whole consecutive transactions that begin right after the acknowledged ones. */
  lemma {:induction false} TransactionsStayWhole(c: Config, t0: int, run: seq<Action>, m: nat)
    requires Legal(c, t0, run) && WellFormed(run)
    requires m < |Run(c, t0, run).b.attempts|
    ensures WholeTxns(Run(c, t0, run).b.attempts, m, Txns(run))
  {
    var front := Front(run);
    var before, after := Run(c, t0, front).b.attempts, Run(c, t0, run).b.attempts;
    var txns, k := Txns(front), AckedTxns(c, t0, front);
    AttemptsGrow(c, t0, run);
    if m < |before| {
      TransactionsStayWhole(c, t0, front, m);
      var i, j :| 0 <= i <= j <= |txns| && CarriesTxns(before, m, txns, i, j);
      assert after[..m] == before[..m];
      assert Txns(run)[..i] == txns[..i] && Txns(run)[i..j] == txns[i..j];
      assert CarriesTxns(after, m, Txns(run), i, j);
    } else {
      InvHolds(c, t0, front);
      assert after[..m] == before;
      assert txns[k..|txns|] == txns[k..];
      assert CarriesTxns(after, m, Txns(run), k, |txns|);
    }
  }

  /** A step logs at most one attempt, and that attempt carries the whole committed prefix. */
  lemma AttemptsGrow(c: Config, t0: int, run: seq<Action>)
    requires run != []
    ensures
      var before, after := Run(c, t0, Front(run)).b, Run(c, t0, run).b;
      && before.attempts <= after.attempts
      && |after.attempts| <= |before.attempts| + 1
      && (|after.attempts| > |before.attempts| ==>
            Last(after.attempts).payload == Committed(before) && Committed(before) != [] &&
            Txns(run) == Txns(Front(run)))
  {
  }

  /** Every attempt of the run carries whole transactions. */
  ghost predicate AllWhole(c: Config, t0: int, run: seq<Action>) {
    forall m :: 0 <= m < |Run(c, t0, run).b.attempts| ==> WholeTxns(Run(c, t0, run).b.attempts, m, Txns(run))
  }

  predicate NoBegin(run: seq<Action>) {
    forall a :: a in run ==> !Delivers(a, Begin)
  }

  /** However `run` goes on without a further Begin, transactions stay whole. */
  ghost predicate StaysWhole(c: Config, t0: int, run: seq<Action>) {
    forall more :: NoBegin(more) && Legal(c, t0, run + more) ==> AllWhole(c, t0, run + more)
  }

  /** The exact condition for atomicity: transactions stay whole, at every point of the run and
      however it goes on from there, exactly when no Begin arrives while rows are open. */
  lemma {:induction false} AtomicityIff(c: Config, t0: int, run: seq<Action>)
    requires Legal(c, t0, run)
    ensures (forall k :: 0 <= k <= |run| ==> StaysWhole(c, t0, run[..k])) <==> WellFormed(run)
  {
    if WellFormed(run) {
      forall k | 0 <= k <= |run|
        ensures StaysWhole(c, t0, run[..k])
      {
        PrefixIsWellFormed(run, k);
        WellFormedStaysWhole(c, t0, run[..k]);
      }
    } else {
      var k := FirstStrayBegin(c, t0, run);
      var more := TearOpenTransaction(c, t0, run[..k]);
      assert !StaysWhole(c, t0, run[..k]);
    }
  }

  lemma {:induction false} PrefixIsWellFormed(run: seq<Action>, k: nat)
    requires WellFormed(run) && k <= |run|
    ensures WellFormed(run[..k])
  {
    if k == |run| {
      assert run[..k] == run;
    } else {
      assert Front(run)[..k] == run[..k];
      PrefixIsWellFormed(Front(run), k);
    }
  }

  lemma {:induction false} WellFormedStaysWhole(c: Config, t0: int, run: seq<Action>)
    requires WellFormed(run)
    ensures StaysWhole(c, t0, run)
  {
    forall more | NoBegin(more) && Legal(c, t0, run + more)
      ensures AllWhole(c, t0, run + more)
    {
      NoBeginKeepsWellFormed(run, more);
      forall m | 0 <= m < |Run(c, t0, run + more).b.attempts|
        ensures WholeTxns(Run(c, t0, run + more).b.attempts, m, Txns(run + more))
      {
        TransactionsStayWhole(c, t0, run + more, m);
      }
    }
  }

  lemma {:induction false} NoBeginKeepsWellFormed(run: seq<Action>, more: seq<Action>)
    requires WellFormed(run) && NoBegin(more)
    ensures WellFormed(run + more)
    decreases |more|
  {
    if more == [] {
      assert run + more == run;
    } else {
      assert Front(run + more) == run + Front(more) && Last(more) in more;
      NoBeginKeepsWellFormed(run, Front(more));
    }
  }

  /** Committed rows that the counter knows, and open rows that it has lost. */
  ghost predicate LostCount(s: PState, txns: seq<seq<Data>>, open: seq<Data>)
    requires Ok(s.b)
  {
    && s.pc.Idle? && s.adds == 0 && open != [] && Tail(s.b) == open
    && AckedRows(s.b.attempts) + Committed(s.b) == Flatten(txns)
  }

  /** A run that is not well-formed loses count at its first Begin inside a transaction. */
  lemma {:induction false} FirstStrayBegin(c: Config, t0: int, run: seq<Action>) returns (k: nat)
    requires Legal(c, t0, run) && !WellFormed(run)
    ensures k <= |run| && Legal(c, t0, run[..k])
    ensures LostCount(Run(c, t0, run[..k]), Txns(run[..k]), Open(run[..k]))
  {
    var front := Front(run);
    if !WellFormed(front) {
      k := FirstStrayBegin(c, t0, front);
      assert front[..k] == run[..k];
    } else {
      k := |run|;
      assert run[..k] == run;
      RowsAreConserved(c, t0, front);
      TailIsOpen(c, t0, front);
    }
  }

  /** From there a legal continuation sends part of a transaction: send what is committed, add one
      more row, commit, send. The commit marks one row of at least two. */
  lemma {:induction false} TearOpenTransaction(c: Config, t0: int, run: seq<Action>) returns (more: seq<Action>)
    requires Legal(c, t0, run) && LostCount(Run(c, t0, run), Txns(run), Open(run))
    ensures NoBegin(more) && Legal(c, t0, run + more) && !AllWhole(c, t0, run + more)
  {
    var flush, txns, open := Flush(t0, Acked), Txns(run), Open(run);
    var row, commit := Deliver(Row(open[0]), t0, Acked), Deliver(Commit, t0, Acked);
    var sent := SendCommitted(c, t0, run);
    var added := OneMoreRow(c, t0, sent, open[0]);
    var marked := CommitOne(c, t0, added);
    more := [flush, row, Settle, commit, Settle, flush];
    assert run + more == marked + [flush];
    OneMoreStep(c, t0, marked, flush);
    var before, after := Run(c, t0, marked).b, Run(c, t0, run + more).b;
    assert Committed(before) == [open[0]];
    assert after.attempts == before.attempts + [Attempt([open[0]], Acked)];
    OneRowIsNotWhole(after.attempts, |before.attempts|, txns, open + [open[0]]);
    assert Txns(run + more) == txns + [open + [open[0]]];
  }

  lemma {:induction false} SendCommitted(c: Config, t0: int, run: seq<Action>) returns (more: seq<Action>)
    requires Legal(c, t0, run) && LostCount(Run(c, t0, run), Txns(run), Open(run))
    ensures more == run + [Flush(t0, Acked)] && Legal(c, t0, more)
    ensures Txns(more) == Txns(run) && Open(more) == Open(run)
    ensures LostCount(Run(c, t0, more), Txns(run), Open(run)) && Run(c, t0, more).b.lastCommitted == -1
  {
    more := run + [Flush(t0, Acked)];
    OneMoreStep(c, t0, run, Flush(t0, Acked));
    FlushKeepsLostCount(Run(c, t0, run), t0, Txns(run), Open(run));
  }

  lemma FlushKeepsLostCount(s: PState, now: int, txns: seq<seq<Data>>, open: seq<Data>)
    requires Ok(s.b) && LostCount(s, txns, open)
    ensures LostCount(s.(b := FlushStep(s.b, Acked, now)), txns, open)
    ensures FlushStep(s.b, Acked, now).lastCommitted == -1
  {
    FlushParts(s.b, Acked, now);
    assert Flatten(txns) + [] == Flatten(txns);
  }

  /** One more row, delivered and counted, when no send can come first. */
  lemma {:induction false} OneMoreRow(c: Config, t0: int, run: seq<Action>, item: Data) returns (more: seq<Action>)
    requires Legal(c, t0, run) && Run(c, t0, run).pc.Idle? && Run(c, t0, run).b.lastCommitted == -1
    ensures more == run + [Deliver(Row(item), t0, Acked)] + [Settle] && Legal(c, t0, more)
    ensures Txns(more) == Txns(run) && Open(more) == Open(run) + [item] && WellFormed(more) == WellFormed(run)
    ensures
      var s := Run(c, t0, run);
      Run(c, t0, more) == s.(b := s.b.(buffer := s.b.buffer + [item]), adds := s.adds + 1)
  {
    var added := run + [Deliver(Row(item), t0, Acked)];
    OneMoreStep(c, t0, run, Deliver(Row(item), t0, Acked));
    assert Txns(added) == Txns(run) && Open(added) == Open(run) + [item] && WellFormed(added) == WellFormed(run);
    more := added + [Settle];
    OneMoreStep(c, t0, added, Settle);
  }

  lemma {:induction false} CommitOne(c: Config, t0: int, run: seq<Action>) returns (more: seq<Action>)
    requires Legal(c, t0, run)
    requires var s := Run(c, t0, run); s.pc.Idle? && s.adds == 1 && s.b.lastCommitted == -1 && s.b.buffer != []
    ensures more == run + [Deliver(Commit, t0, Acked)] + [Settle] && Legal(c, t0, more)
    ensures Txns(more) == Txns(run) + [Open(run)]
    ensures Run(c, t0, more).b == Run(c, t0, run).b.(lastCommitted := 0)
  {
    var marked := run + [Deliver(Commit, t0, Acked)];
    OneMoreStep(c, t0, run, Deliver(Commit, t0, Acked));
    assert Txns(marked) == Txns(run) + [Open(run)];
    more := marked + [Settle];
    OneMoreStep(c, t0, marked, Settle);
  }

  /** One row cannot be the payload that follows `txns` when the next transaction has two or more. */
  lemma OneRowIsNotWhole(attempts: seq<Attempt>, m: nat, txns: seq<seq<Data>>, next: seq<Data>)
    requires m < |attempts| && |attempts[m].payload| == 1 && |next| >= 2
    requires AckedRows(attempts[..m]) == Flatten(txns)
    ensures !WholeTxns(attempts, m, txns + [next])
  {
    var all := txns + [next];
    forall i, j | 0 <= i <= j <= |all|
      ensures !CarriesTxns(attempts, m, all, i, j)
    {
      FlattenSplit(all[..i], all[i..j]);
      assert all[..i] + all[i..j] == all[..j];
      PrefixLength(txns, next, j);
    }
  }

  /** Up to `txns` the rows are no more than theirs, with `next` they are at least two more. */
  lemma PrefixLength(txns: seq<seq<Data>>, next: seq<Data>, j: nat)
    requires |next| >= 2 && j <= |txns| + 1
    ensures j <= |txns| ==> |Flatten((txns + [next])[..j])| <= |Flatten(txns)|
    ensures j > |txns| ==> |Flatten((txns + [next])[..j])| >= |Flatten(txns)| + 2
  {
    if j <= |txns| {
      FlattenSplit(txns[..j], txns[j..]);
      assert txns[..j] + txns[j..] == txns && (txns + [next])[..j] == txns[..j];
    } else {
      assert (txns + [next])[..j] == txns + [next];
      FlattenAppend(txns, next);
    }
  }

  /** The smallest such run: a Begin between the two rows of a transaction resets the counter, and the
      commit then sends the first row without the second. */
  lemma {:induction false} StrayBeginTearsTransaction(c: Config, t0: int, a: Data, b: Data) returns (run: seq<Action>)
    requires c.size > 2
    ensures Legal(c, t0, run) && !WellFormed(run)
    ensures Txns(run) == [[a, b]] && Run(c, t0, run).b.attempts == [Attempt([a], Acked)]
    ensures !WholeTxns(Run(c, t0, run).b.attempts, 0, Txns(run))
  {
    var r3 := RowThenBegin(c, t0, a);
    var r5 := OneMoreRow(c, t0, r3, b);
    assert [a] + [b] == [a, b];
    assert Open(r5) == [a, b] && Run(c, t0, r5) == PState(State([a, b], -1, t0, []), 1, Idle);
    var commit := Deliver(Commit, t0, Acked);
    var r6 := r5 + [commit];
    OneMoreStep(c, t0, r5, commit);
    assert Txns(r6) == [[a, b]] && !WellFormed(r6) && Committed(Run(c, t0, r6).b) == [a];
    run := r6 + [Flush(t0, Acked)];
    OneMoreStep(c, t0, r6, Flush(t0, Acked));
    OneRowIsNotWhole(Run(c, t0, run).b.attempts, 0, [], [a, b]);
  }

  lemma {:induction false} RowThenBegin(c: Config, t0: int, a: Data) returns (run: seq<Action>)
    requires c.size > 2
    ensures Legal(c, t0, run) && !WellFormed(run) && Txns(run) == [] && Open(run) == [a]
    ensures Run(c, t0, run) == PState(State([a], -1, t0, []), 0, Idle)
  {
    var row := OneMoreRow(c, t0, [], a);
    assert [] + [a] == [a];
    run := row + [Deliver(Begin, t0, Acked)];
    OneMoreStep(c, t0, row, Deliver(Begin, t0, Acked));
  }

  // ---- Retries

  predicate AllFailed(attempts: seq<Attempt>) {
    forall a :: a in attempts ==> a.outcome.Failed?
  }

  /** Until a send is acknowledged, each retry carries what the failed one carried, and perhaps
      more behind it. */
  lemma {:induction false} RetriesOnlyExtend(c: Config, t0: int, run: seq<Action>, m: nat, n: nat)
    requires Legal(c, t0, run)
    requires m <= n < |Run(c, t0, run).b.attempts|
    requires AllFailed(Run(c, t0, run).b.attempts[m..n])
    ensures Run(c, t0, run).b.attempts[m].payload <= Run(c, t0, run).b.attempts[n].payload
  {
    var front := Front(run);
    var before, after := Run(c, t0, front).b, Run(c, t0, run).b;
    AttemptsGrow(c, t0, run);
    if n < |before.attempts| {
      assert after.attempts[m..n] == before.attempts[m..n];
      RetriesOnlyExtend(c, t0, front, m, n);
    } else if m < n {
      assert after.attempts[m..n] == before.attempts[m..];
      FailedStaysCommitted(c, t0, front, m);
    }
  }

  lemma SuffixFailed(attempts: seq<Attempt>, earlier: seq<Attempt>, m: nat)
    requires m < |attempts| && AllFailed(attempts[m..]) && earlier <= attempts
    ensures Last(attempts).outcome.Failed?
    ensures m < |earlier| ==> AllFailed(earlier[m..])
  {
    assert Last(attempts) == attempts[m..][|attempts| - 1 - m];
    assert m < |earlier| ==> earlier[m..] <= attempts[m..];
  }

  lemma {:induction false} FailedStaysCommitted(c: Config, t0: int, run: seq<Action>, m: nat)
    requires m < |Run(c, t0, run).b.attempts|
    requires AllFailed(Run(c, t0, run).b.attempts[m..])
    ensures Run(c, t0, run).b.attempts[m].payload <= Committed(Run(c, t0, run).b)
  {
    var before, after := Run(c, t0, Front(run)).b, Run(c, t0, run).b;
    AttemptsGrow(c, t0, run);
    SuffixFailed(after.attempts, before.attempts, m);
    CommittedOnlySent(c, t0, run);
    assert Committed(before) <= Committed(after);
    if m < |before.attempts| {
      FailedStaysCommitted(c, t0, Front(run), m);
    }
  }

  /** The step from `before` to `after` was an acknowledged send, or what was committed still is. */
  predicate KeepsCommitted(before: State, after: State)
    requires Ok(before) && Ok(after)
  {
    || (|after.attempts| > |before.attempts| && Last(after.attempts).outcome.Acked?)
    || Committed(before) <= Committed(after)
  }

  lemma FlushKeepsCommitted(s: State, o: Outcome, now: int)
    requires Ok(s)
    ensures KeepsCommitted(s, FlushStep(s, o, now))
  {
    FlushParts(s, o, now);
  }

  lemma AddKeepsCommitted(size: nat, s: State, item: Data, o: Outcome, now: int)
    requires Ok(s)
    ensures KeepsCommitted(s, AddStep(size, s, item, o, now))
  {
    var room := if |s.buffer| >= size then FlushStep(s, o, now) else s;
    FlushKeepsCommitted(s, o, now);
    assert Committed(AddStep(size, s, item, o, now)) == Committed(room);
  }

  lemma MarkKeepsCommitted(s: State, n: int)
    requires Ok(s)
    ensures KeepsCommitted(s, CommitStep(s, n)) && KeepsCommitted(s, RollbackStep(s, n))
  {
  }

  /** Committed items leave the buffer only by an acknowledged send. */
  lemma CommittedOnlySent(c: Config, t0: int, run: seq<Action>)
    requires run != []
    ensures KeepsCommitted(Run(c, t0, Front(run)).b, Run(c, t0, run).b)
  {
    var s := Run(c, t0, Front(run));
    match Last(run)
    case Settle =>
    case Flush(at, o) => FlushKeepsCommitted(s.b, o, at);
    case Tick(_, at, o) => FlushKeepsCommitted(s.b, o, at);
    case Deliver(op, at, o) =>
      MarkKeepsCommitted(s.b, s.adds);
      if op.Row? {
        AddKeepsCommitted(c.size, s.b, op.item, o, at);
      }
  }

  /** The document store after the sends: an acknowledged payload was applied in full, a failed one
      left some of its items behind. */
  function Replay(read: Reader, store: Store, attempts: seq<Attempt>): Store {
    if attempts == [] then store
    else
      var before := Replay(read, store, Front(attempts));
      match Last(attempts).outcome
      case Acked => Apply(read, before, Last(attempts).payload)
      case Failed(residue) => Apply(read, before, residue)
  }

  /** What the failed sends since the last acknowledged one left behind. */
  function Residue(attempts: seq<Attempt>): seq<Data> {
    if attempts == [] then []
    else
      match Last(attempts).outcome
      case Acked => []
      case Failed(residue) => Residue(Front(attempts)) + residue
  }

  predicate NoCreates(run: seq<Action>) {
    forall a :: a in run && a.Deliver? && a.op.Row? ==> a.op.item.action != CREATE
  }

  /** At any time the store is the clean effect of the acknowledged rows, disturbed only by items
      that are still waiting in the committed prefix. */
  ghost predicate CleanUpToResidue(read: Reader, store: Store, s: State)
    requires Ok(s)
  {
    && ReplaySafe(s.buffer)
    && DrawnFrom(Residue(s.attempts), Committed(s))
    && Replay(read, store, s.attempts) ==
       Apply(read, Apply(read, store, AckedRows(s.attempts)), Residue(s.attempts))
  }

  lemma FlushKeepsClean(read: Reader, store: Store, s: State, o: Outcome, now: int)
    requires Ok(s) && CleanUpToResidue(read, store, s) && Possible(s, o)
    ensures CleanUpToResidue(read, store, FlushStep(s, o, now))
  {
    if s.lastCommitted >= 0 {
      var payload, base := Committed(s), Apply(read, store, AckedRows(s.attempts));
      var attempts := s.attempts + [Attempt(payload, o)];
      AckedRowsAppend(s.attempts, Attempt(payload, o));
      assert Front(attempts) == s.attempts;
      match o
      case Acked =>
        RetryConverges(read, base, Residue(s.attempts), payload);
        ApplyConcat(read, store, AckedRows(s.attempts), payload);
      case Failed(residue) =>
        ApplyConcat(read, base, Residue(s.attempts), residue);
    }
  }

  lemma GrowKeepsClean(read: Reader, store: Store, s: State, r: State)
    requires Ok(s) && Ok(r) && CleanUpToResidue(read, store, s)
    requires r.attempts == s.attempts && Committed(s) <= Committed(r) && ReplaySafe(r.buffer)
    ensures CleanUpToResidue(read, store, r)
  {
    forall x | x in Residue(s.attempts)
      ensures x in Committed(r)
    {
      assert x in Committed(s);
    }
  }

  lemma PushKeepsClean(read: Reader, store: Store, s: State, item: Data)
    requires Ok(s) && CleanUpToResidue(read, store, s) && item.action != CREATE
    ensures CleanUpToResidue(read, store, s.(buffer := s.buffer + [item]))
  {
    var r := s.(buffer := s.buffer + [item]);
    assert Committed(r) == Committed(s);
    assert ReplaySafe(r.buffer);
    GrowKeepsClean(read, store, s, r);
  }

  lemma AddKeepsClean(size: nat, s: State, item: Data, read: Reader, store: Store, o: Outcome, now: int)
    requires Ok(s) && CleanUpToResidue(read, store, s) && Possible(s, o) && item.action != CREATE
    ensures CleanUpToResidue(read, store, AddStep(size, s, item, o, now))
  {
    if |s.buffer| >= size {
      FlushKeepsClean(read, store, s, o, now);
      PushKeepsClean(read, store, FlushStep(s, o, now), item);
    } else {
      PushKeepsClean(read, store, s, item);
    }
  }

  lemma MarkKeepsClean(s: State, n: int, read: Reader, store: Store)
    requires Ok(s) && CleanUpToResidue(read, store, s)
    ensures CleanUpToResidue(read, store, CommitStep(s, n))
    ensures CleanUpToResidue(read, store, RollbackStep(s, n))
  {
    GrowKeepsClean(read, store, s, CommitStep(s, n));
    assert Committed(RollbackStep(s, n)) == Committed(s);
    GrowKeepsClean(read, store, s, RollbackStep(s, n));
  }

  lemma StepKeepsClean(c: Config, s: PState, a: Action, read: Reader, store: Store)
    requires Ok(s.b) && CleanUpToResidue(read, store, s.b) && Enabled(s, a)
    requires a.Deliver? && a.op.Row? ==> a.op.item.action != CREATE
    ensures CleanUpToResidue(read, store, Step(c, s, a).b)
  {
    match a
    case Settle =>
    case Flush(at, o) => FlushKeepsClean(read, store, s.b, o, at);
    case Tick(_, at, o) => FlushKeepsClean(read, store, s.b, o, at);
    case Deliver(op, at, o) =>
      MarkKeepsClean(s.b, s.adds, read, store);
      if op.Row? {
        AddKeepsClean(c.size, s.b, op.item, read, store, o, at);
      }
  }

  lemma {:induction false} StoreIsCleanUpToResidue(c: Config, t0: int, run: seq<Action>, read: Reader, store: Store)
    requires Legal(c, t0, run) && NoCreates(run)
    ensures CleanUpToResidue(read, store, Run(c, t0, run).b)
  {
    if run != [] {
      var front, a := Front(run), Last(run);
      assert a in run;
      StoreIsCleanUpToResidue(c, t0, front, read, store);
      StepKeepsClean(c, Run(c, t0, front), a, read, store);
    }
  }

  /** Whenever no committed row is waiting, as right after an acknowledged send, the store is what
      one clean application of all committed transactions gives, however many attempts failed half
      way before. */
  lemma {:induction false} SentTransactionsTakeEffectOnce(c: Config, t0: int, run: seq<Action>,
                                                          read: Reader, store: Store)
    requires Legal(c, t0, run) && WellFormed(run) && NoCreates(run)
    requires Run(c, t0, run).b.lastCommitted == -1
    ensures Replay(read, store, Run(c, t0, run).b.attempts) == Apply(read, store, Flatten(Txns(run)))
  {
    StoreIsCleanUpToResidue(c, t0, run, read, store);
    RowsAreConserved(c, t0, run);
    NothingPendingNoResidue(read, store, Run(c, t0, run).b);
  }

  lemma NothingPendingNoResidue(read: Reader, store: Store, s: State)
    requires Ok(s) && s.lastCommitted == -1 && CleanUpToResidue(read, store, s)
    ensures AckedRows(s.attempts) + Committed(s) == AckedRows(s.attempts)
    ensures Replay(read, store, s.attempts) == Apply(read, store, AckedRows(s.attempts))
  {
    var residue := Residue(s.attempts);
    assert forall i :: 0 <= i < |residue| ==> residue[i] in Committed(s);
    assert residue == [] && Committed(s) == [];
  }

  // ---- Memory

  predicate AllSendsSucceed(run: seq<Action>) {
    forall a :: a in run && !a.Settle? ==> a.outcome.Acked?
  }

  /** The most rows any one transaction has added so far. */
  function LargestTxn(run: seq<Action>): nat {
    if run == [] then 0 else Max(LargestTxn(Front(run)), |Open(run)|)
  }

  /** If every send succeeds, the buffer never holds more than the configured size, unless a single
      transaction is larger than that. */
  lemma {:induction false} BufferIsBounded(c: Config, t0: int, run: seq<Action>)
    requires Legal(c, t0, run) && WellFormed(run) && AllSendsSucceed(run)
    ensures |Run(c, t0, run).b.buffer| <= Max(c.size, LargestTxn(run))
  {
    if run != [] {
      var front, a := Front(run), Last(run);
      assert a in run && forall x :: x in front ==> x in run;
      BufferIsBounded(c, t0, front);
      if a.Deliver? && a.op.Row? {
        TailIsOpen(c, t0, front);
        AddIsBounded(c, Run(c, t0, front).b, a.op.item, a.at);
      } else {
        OnlyRowsGrow(c, Run(c, t0, front), a);
      }
    }
  }

  /** A delivered row makes an attempt exactly when it finds the buffer full and something committed. */
  lemma {:induction false} RowSendsIff(c: Config, t0: int, run: seq<Action>)
    requires run != [] && Last(run).Deliver? && Last(run).op.Row?
    ensures
      var before, after := Run(c, t0, Front(run)).b, Run(c, t0, run).b;
      && (|after.attempts| > |before.attempts| <==> |before.buffer| >= c.size && before.lastCommitted >= 0)
      && Last(after.buffer) == Last(run).op.item
  {
    RowParts(c, t0, run);
  }

  lemma {:induction false} TailIsOpen(c: Config, t0: int, run: seq<Action>)
    requires Legal(c, t0, run) && WellFormed(run)
    ensures Tail(Run(c, t0, run).b) == Open(run)
  {
    InvHolds(c, t0, run);
  }

  lemma OnlyRowsGrow(c: Config, s: PState, a: Action)
    requires Ok(s.b) && !(a.Deliver? && a.op.Row?)
    ensures |Step(c, s, a).b.buffer| <= |s.b.buffer|
  {
  }

  lemma AddIsBounded(c: Config, s: State, item: Data, at: int)
    requires Ok(s)
    ensures |AddStep(c.size, s, item, Acked, at).buffer| <= Max(c.size, |Tail(s)| + 1)
  {
  }
}
