/** When the flush ticker sends: gating by the last success, and how long a committed row waits. */
module FlushTiming {
  import opened BulkData
  import opened BatcherSpec
  import opened Pipeline
  import Transactions

  /** The time reached at the end of a run. */
  function Clock(t0: int, run: seq<Action>): int {
    if run == [] then t0
    else if Last(run).Settle? then Clock(t0, Front(run))
    else Last(run).at
  }

  /** When a step begins; only a tick reads the clock before it sends. */
  function StartOf(t0: int, run: seq<Action>): int
    requires run != []
  {
    match Last(run)
    case Settle => Clock(t0, Front(run))
    case Tick(start, _, _) => start
    case Deliver(_, at, _) => at
    case Flush(at, _) => at
  }

  /** Time never runs backwards, within a step or between steps. */
  predicate Monotone(t0: int, run: seq<Action>) {
    run == [] ||
    (Monotone(t0, Front(run)) && Clock(t0, Front(run)) <= StartOf(t0, run) <= Clock(t0, run))
  }

  /** Step `j` made an attempt, respectively an acknowledged one. */
  predicate SendsAt(c: Config, t0: int, run: seq<Action>, j: nat)
    requires j < |run|
  {
    |Run(c, t0, run[..j + 1]).b.attempts| > |Run(c, t0, run[..j]).b.attempts|
  }

  predicate AckedAt(c: Config, t0: int, run: seq<Action>, j: nat)
    requires j < |run|
  {
    SendsAt(c, t0, run, j) && Last(Run(c, t0, run[..j + 1]).b.attempts).outcome.Acked?
  }

  lemma PrefixOf(run: seq<Action>, j: nat)
    requires j < |run|
    ensures Front(run[..j + 1]) == run[..j] && Last(run[..j + 1]) == run[j]
    ensures j + 1 < |run| ==> Front(run)[..j + 1] == run[..j + 1]
    ensures Front(run)[..j] == run[..j]
  {
  }

  /** Only an acknowledged send moves the timer, to the time at which it ends. */
  lemma LastStepMovesTimer(c: Config, t0: int, run: seq<Action>)
    requires run != []
    ensures Run(c, t0, run).b.lastFlush ==
            if AckedAt(c, t0, run, |run| - 1) then Clock(t0, run) else Run(c, t0, Front(run)).b.lastFlush
  {
    PrefixOf(run, |run| - 1);
    assert run[..|run|] == run;
  }

  /** A shorter run sees the same acknowledged sends. */
  lemma AckedInPrefix(c: Config, t0: int, run: seq<Action>, j: nat, m: nat)
    requires m < j <= |run|
    ensures AckedAt(c, t0, run[..j], m) == AckedAt(c, t0, run, m)
    ensures run[..j][..m + 1] == run[..m + 1]
  {
    assert run[..j][..m + 1] == run[..m + 1] && run[..j][..m] == run[..m];
  }

  /** The idle timer shows the end of the latest acknowledged send, or the creation time. */
  lemma {:induction false} LastFlushIsLatestAck(c: Config, t0: int, run: seq<Action>)
    requires Monotone(t0, run)
    ensures t0 <= Run(c, t0, run).b.lastFlush <= Clock(t0, run)
    ensures forall j :: 0 <= j < |run| && AckedAt(c, t0, run, j) ==>
              Clock(t0, run[..j + 1]) <= Run(c, t0, run).b.lastFlush
    ensures
      || Run(c, t0, run).b.lastFlush == t0
      || exists j :: 0 <= j < |run| && AckedAt(c, t0, run, j) &&
           Run(c, t0, run).b.lastFlush == Clock(t0, run[..j + 1])
  {
    if run != [] {
      var front := Front(run);
      LastFlushIsLatestAck(c, t0, front);
      LastStepMovesTimer(c, t0, run);
      forall j | 0 <= j < |front|
        ensures AckedAt(c, t0, run, j) == AckedAt(c, t0, front, j) && front[..j + 1] == run[..j + 1]
      {
        AckedInPrefix(c, t0, run, |front|, j);
      }
      assert run[..|run|] == run;
    }
  }

  /** A tick sends exactly when something committed is waiting and the interval has passed since
      the creation and since every acknowledged send, whatever triggered it. Failed sends do not
      appear in the condition, so they never postpone a tick. */
  lemma TickSendsIff(c: Config, t0: int, run: seq<Action>)
    requires run != [] && Monotone(t0, run) && Last(run).Tick?
    ensures
      var front, now := Front(run), Last(run).start;
      SendsAt(c, t0, run, |run| - 1) <==>
        && c.timeout > 0
        && Run(c, t0, front).b.lastCommitted >= 0
        && now - t0 >= c.timeout
        && forall j :: 0 <= j < |front| && AckedAt(c, t0, front, j) ==>
             now - Clock(t0, front[..j + 1]) >= c.timeout
  {
    LastFlushIsLatestAck(c, t0, Front(run));
    assert run[..|run|] == run;
  }

  // ---- Latency

  /** The next tick of a ticker that was started with the batcher. */
  function NextTick(c: Config, t0: int, run: seq<Action>): int {
    if run == [] then t0 + c.timeout
    else if Last(run).Tick? then NextTick(c, t0, Front(run)) + c.timeout
    else NextTick(c, t0, Front(run))
  }

  /** Steps take no time, ticks come exactly on schedule and no tick is missed. */
  predicate Punctual(c: Config, t0: int, run: seq<Action>) {
    run == [] || (
      && Punctual(c, t0, Front(run))
      && Clock(t0, Front(run)) <= StartOf(t0, run) == Clock(t0, run) <= NextTick(c, t0, Front(run))
      && (Last(run).Tick? ==> Clock(t0, run) == NextTick(c, t0, Front(run))))
  }

  lemma {:induction false} PunctualIsMonotone(c: Config, t0: int, run: seq<Action>)
    requires Punctual(c, t0, run) && c.timeout > 0
    ensures Monotone(t0, run)
    ensures Clock(t0, run) <= NextTick(c, t0, run) <= Clock(t0, run) + c.timeout
  {
    if run != [] {
      PunctualIsMonotone(c, t0, Front(run));
    }
  }

  /** When the schedule has moved on since step `i`, the tick that was due then has happened. */
  lemma {:induction false} TickArrives(c: Config, t0: int, run: seq<Action>, i: nat) returns (j: nat)
    requires c.timeout > 0 && Punctual(c, t0, run) && i <= |run|
    requires NextTick(c, t0, run) > NextTick(c, t0, run[..i])
    ensures i <= j < |run| && run[j].Tick?
    ensures run[j].start == Clock(t0, run[..j + 1]) == NextTick(c, t0, run[..i])
    ensures NextTick(c, t0, run[..j + 1]) == NextTick(c, t0, run[..i]) + c.timeout
  {
    assert run[..|run|] == run;
    var front := Front(run);
    assert front[..i] == run[..i];
    if NextTick(c, t0, front) > NextTick(c, t0, run[..i]) {
      j := TickArrives(c, t0, front, i);
      PrefixOf(run, j);
    } else {
      ScheduleMovesOn(c, t0, front, i);
      j := |front|;
    }
  }

  lemma {:induction false} ScheduleMovesOn(c: Config, t0: int, run: seq<Action>, i: nat)
    requires c.timeout > 0 && i <= |run|
    ensures NextTick(c, t0, run[..i]) <= NextTick(c, t0, run)
  {
    if i == |run| {
      assert run[..i] == run;
    } else {
      assert Front(run)[..i] == run[..i];
      ScheduleMovesOn(c, t0, Front(run), i);
    }
  }

  lemma {:induction false} PunctualPrefix(c: Config, t0: int, run: seq<Action>, i: nat)
    requires Punctual(c, t0, run) && i <= |run|
    ensures Punctual(c, t0, run[..i]) && Clock(t0, run[..i]) <= Clock(t0, run)
  {
    if i == |run| {
      assert run[..i] == run;
    } else {
      assert Front(run)[..i] == run[..i];
      PunctualPrefix(c, t0, Front(run), i);
    }
  }

  /** Item number `p`, counted over all rows ever sent or committed, is committed and waiting. */
  predicate Waiting(s: State, p: nat, item: Data)
    requires Ok(s)
  {
    var before := |AckedRows(s.attempts)|;
    before <= p < before + |Committed(s)| && Committed(s)[p - before] == item
  }

  /** The attempt made in state `s` by a flush carries item number `p`. */
  predicate Carries(c: Config, t0: int, run: seq<Action>, j: nat, p: nat, item: Data)
    requires j < |run|
  {
    && SendsAt(c, t0, run, j)
    && var before := Run(c, t0, run[..j]).b;
       var payload := Last(Run(c, t0, run[..j + 1]).b.attempts).payload;
       var offset := p - |AckedRows(before.attempts)|;
       0 <= offset < |payload| && payload[offset] == item
  }

  /** Without an attempt a waiting item keeps waiting. */
  lemma {:induction false} KeepsWaiting(c: Config, t0: int, run: seq<Action>, i: nat, k: nat, p: nat, item: Data)
    requires i <= k <= |run| && Waiting(Run(c, t0, run[..i]).b, p, item)
    requires forall j :: i <= j < k ==> !SendsAt(c, t0, run, j)
    ensures Waiting(Run(c, t0, run[..k]).b, p, item)
  {
    if i < k {
      KeepsWaiting(c, t0, run, i, k - 1, p, item);
      PrefixOf(run, k - 1);
      Transactions.AttemptsGrow(c, t0, run[..k]);
      Transactions.CommittedOnlySent(c, t0, run[..k]);
      assert !SendsAt(c, t0, run, k - 1);
    }
  }

  /** With a punctual ticker, a row that is committed at time `t` is part of an attempt by
      `t` plus twice the flush interval, once the run has gone past that time. A recent
      acknowledged send can suppress one tick, never two. */
  lemma CommittedRowIsSentInTime(c: Config, t0: int, run: seq<Action>, i: nat, p: nat, item: Data) returns (j: nat)
    requires c.timeout > 0 && Punctual(c, t0, run) && i <= |run|
    requires Waiting(Run(c, t0, run[..i]).b, p, item)
    requires Clock(t0, run) > Clock(t0, run[..i]) + 2 * c.timeout
    ensures i <= j < |run| && Carries(c, t0, run, j, p, item)
    ensures Clock(t0, run[..j + 1]) <= Clock(t0, run[..i]) + 2 * c.timeout
  {
    var tick := SecondTick(c, t0, run, i);
    j := FirstSend(c, t0, run, i, tick);
    if j == tick {
      KeepsWaiting(c, t0, run, i, tick, p, item);
      SecondTickSends(c, t0, run, i, tick);
    }
    FirstSendCarries(c, t0, run, i, j, p, item);
    TimePasses(c, t0, run, j + 1, tick + 1);
  }

  lemma TimePasses(c: Config, t0: int, run: seq<Action>, j: nat, k: nat)
    requires Punctual(c, t0, run) && j <= k <= |run|
    ensures Clock(t0, run[..j]) <= Clock(t0, run[..k])
  {
    PunctualPrefix(c, t0, run, k);
    PunctualPrefix(c, t0, run[..k], j);
    assert run[..k][..j] == run[..j];
  }

  lemma FirstSendCarries(c: Config, t0: int, run: seq<Action>, i: nat, j: nat, p: nat, item: Data)
    requires i <= j < |run| && Waiting(Run(c, t0, run[..i]).b, p, item)
    requires SendsAt(c, t0, run, j) && forall m :: i <= m < j ==> !SendsAt(c, t0, run, m)
    ensures Carries(c, t0, run, j, p, item)
  {
    KeepsWaiting(c, t0, run, i, j, p, item);
    PrefixOf(run, j);
    Transactions.AttemptsGrow(c, t0, run[..j + 1]);
  }

  lemma SecondTick(c: Config, t0: int, run: seq<Action>, i: nat) returns (j: nat)
    requires c.timeout > 0 && Punctual(c, t0, run) && i <= |run|
    requires Clock(t0, run) > Clock(t0, run[..i]) + 2 * c.timeout
    ensures i <= j < |run| && run[j].Tick? && run[j].start == Clock(t0, run[..j + 1])
    ensures Clock(t0, run[..i]) + c.timeout <= run[j].start <= Clock(t0, run[..i]) + 2 * c.timeout
  {
    PunctualPrefix(c, t0, run, i);
    PunctualIsMonotone(c, t0, run[..i]);
    PunctualIsMonotone(c, t0, run);
    var first := TickArrives(c, t0, run, i);
    j := TickArrives(c, t0, run, first + 1);
  }

  /** The first step from `i` on that sends, or `k` if none before `k` does. */
  lemma {:induction false} FirstSend(c: Config, t0: int, run: seq<Action>, i: nat, k: nat) returns (j: nat)
    requires i <= k < |run|
    ensures i <= j <= k && (j < k ==> SendsAt(c, t0, run, j))
    ensures forall m :: i <= m < j ==> !SendsAt(c, t0, run, m)
    decreases k - i
  {
    if i == k || SendsAt(c, t0, run, i) {
      j := i;
    } else {
      j := FirstSend(c, t0, run, i + 1, k);
    }
  }

  /** Only a send moves the idle timer. */
  lemma {:induction false} QuietKeepsTimer(c: Config, t0: int, run: seq<Action>, i: nat, k: nat)
    requires i <= k <= |run|
    requires forall j :: i <= j < k ==> !SendsAt(c, t0, run, j)
    ensures Run(c, t0, run[..k]).b.lastFlush == Run(c, t0, run[..i]).b.lastFlush
  {
    if i < k {
      QuietKeepsTimer(c, t0, run, i, k - 1);
      PrefixOf(run, k - 1);
      assert !SendsAt(c, t0, run, k - 1);
    }
  }

  lemma SecondTickSends(c: Config, t0: int, run: seq<Action>, i: nat, k: nat)
    requires c.timeout > 0 && Punctual(c, t0, run) && i <= k < |run| && run[k].Tick?
    requires run[k].start >= Clock(t0, run[..i]) + c.timeout
    requires Run(c, t0, run[..k]).b.lastCommitted >= 0
    requires forall j :: i <= j < k ==> !SendsAt(c, t0, run, j)
    ensures SendsAt(c, t0, run, k)
  {
    QuietKeepsTimer(c, t0, run, i, k);
    PunctualPrefix(c, t0, run, i);
    PunctualIsMonotone(c, t0, run[..i]);
    LastFlushIsLatestAck(c, t0, run[..i]);
    PrefixOf(run, k);
  }

  lemma {:induction false} TicksStartLater(c: Config, t0: int, run: seq<Action>)
    requires c.timeout > 0
    ensures NextTick(c, t0, run) >= t0 + c.timeout
  {
    if run != [] {
      TicksStartLater(c, t0, Front(run));
    }
  }

  /** When one interval is enough: of a punctual ticker, a tick carries a row that waits since step `i`,
      without any send since, exactly when no acknowledged send ended after the tick before it. */
  lemma {:induction false} TickCarriesIff(c: Config, t0: int, run: seq<Action>, i: nat, j: nat, p: nat, item: Data)
    requires c.timeout > 0 && Punctual(c, t0, run) && i <= j < |run| && run[j].Tick?
    requires Waiting(Run(c, t0, run[..i]).b, p, item)
    requires forall m :: i <= m < j ==> !SendsAt(c, t0, run, m)
    ensures
      Carries(c, t0, run, j, p, item)
      <==>
      forall m :: 0 <= m < i && AckedAt(c, t0, run, m) ==> Clock(t0, run[..m + 1]) <= run[j].start - c.timeout
  {
    var upTo := run[..j + 1];
    PrefixOf(run, j);
    PunctualPrefix(c, t0, run, j + 1);
    PunctualIsMonotone(c, t0, upTo);
    TicksStartLater(c, t0, run[..j]);
    TickSendsIff(c, t0, upTo);
    KeepsWaiting(c, t0, run, i, j, p, item);
    assert upTo[..j] == run[..j] && upTo[..j + 1] == upTo;
    forall m | 0 <= m < j
      ensures AckedAt(c, t0, run[..j], m) == AckedAt(c, t0, run, m) && run[..j][..m + 1] == run[..m + 1]
      ensures AckedAt(c, t0, run, m) ==> m < i
    {
      AckedInPrefix(c, t0, run, j, m);
    }
    if SendsAt(c, t0, run, j) {
      FirstSendCarries(c, t0, run, i, j, p, item);
    }
  }

  // ---- One interval is not enough

  lemma PunctualStep(c: Config, t0: int, run: seq<Action>, a: Action)
    requires Legal(c, t0, run) && Enabled(Run(c, t0, run), a) && Punctual(c, t0, run)
    requires !a.Settle? ==> Clock(t0, run) <= a.at <= NextTick(c, t0, run)
    requires a.Tick? ==> a.start == a.at == NextTick(c, t0, run)
    requires c.timeout > 0
    ensures Legal(c, t0, run + [a]) && Punctual(c, t0, run + [a])
    ensures Run(c, t0, run + [a]) == Step(c, Run(c, t0, run), a)
    ensures Clock(t0, run + [a]) == if a.Settle? then Clock(t0, run) else a.at
    ensures NextTick(c, t0, run + [a]) == NextTick(c, t0, run) + if a.Tick? then c.timeout else 0
  {
    PunctualIsMonotone(c, t0, run);
    OneMoreStep(c, t0, run, a);
  }

  /** A transaction of one row, into an empty batcher. */
  lemma OneRowTxn(c: Config, t0: int, run: seq<Action>, item: Data, at: int) returns (more: seq<Action>)
    requires Legal(c, t0, run) && Punctual(c, t0, run) && c.timeout > 0 && c.size > 0
    requires Clock(t0, run) <= at <= NextTick(c, t0, run)
    requires var s := Run(c, t0, run); s.pc.Idle? && s.adds == 0 && s.b.buffer == []
    ensures Legal(c, t0, more) && Punctual(c, t0, more)
    ensures Clock(t0, more) == at && NextTick(c, t0, more) == NextTick(c, t0, run)
    ensures Run(c, t0, more) == Run(c, t0, run).(b := Run(c, t0, run).b.(buffer := [item], lastCommitted := 0))
  {
    var r1 := run + [Deliver(Row(item), at, Acked)];
    PunctualStep(c, t0, run, Deliver(Row(item), at, Acked));
    var r2 := r1 + [Settle];
    PunctualStep(c, t0, r1, Settle);
    var r3 := r2 + [Deliver(Commit, at, Acked)];
    PunctualStep(c, t0, r2, Deliver(Commit, at, Acked));
    more := r3 + [Settle];
    PunctualStep(c, t0, r3, Settle);
  }

  /** The bound of two intervals cannot be lowered to one. For every interval of at least two time
      units there is a punctual run in which a committed row waits, without any attempt, for two
      intervals less two units: an explicit flush just after the start suppresses the first tick. */
  lemma {:induction false} OneIntervalIsNotEnough(c: Config, t0: int, a: Data, b: Data)
      returns (run: seq<Action>, i: nat)
    requires c.timeout >= 2 && c.size > 0
    ensures Legal(c, t0, run) && Punctual(c, t0, run) && i <= |run|
    ensures Waiting(Run(c, t0, run[..i]).b, 1, b)
    ensures forall j :: i <= j < |run| ==> !SendsAt(c, t0, run, j)
    ensures Clock(t0, run) == Clock(t0, run[..i]) + 2 * c.timeout - 2 >= Clock(t0, run[..i]) + c.timeout
  {
    var flushed := EarlyFlush(c, t0, a);
    var waiting := OneRowTxn(c, t0, flushed, b, t0 + 1);
    i := |waiting|;
    run := SuppressedTick(c, t0, waiting);
    assert run[..i] == waiting;
  }

  lemma EarlyFlush(c: Config, t0: int, a: Data) returns (run: seq<Action>)
    requires c.timeout >= 2 && c.size > 0
    ensures Legal(c, t0, run) && Punctual(c, t0, run)
    ensures Clock(t0, run) == t0 + 1 && NextTick(c, t0, run) == t0 + c.timeout
    ensures var s := Run(c, t0, run);
      && s.pc.Idle? && s.adds == 0 && s.b.buffer == [] && s.b.lastFlush == t0 + 1
      && AckedRows(s.b.attempts) == [a]
  {
    var one := OneRowTxn(c, t0, [], a, t0);
    run := one + [Flush(t0 + 1, Acked)];
    PunctualStep(c, t0, one, Flush(t0 + 1, Acked));
    FlushedOne(Run(c, t0, one).b, t0 + 1, a);
  }

  lemma {:induction false} SuppressedTick(c: Config, t0: int, run: seq<Action>) returns (more: seq<Action>)
    requires c.timeout >= 2 && Legal(c, t0, run) && Punctual(c, t0, run)
    requires Clock(t0, run) == t0 + 1 && NextTick(c, t0, run) == t0 + c.timeout
    requires Run(c, t0, run).pc.Idle? && Run(c, t0, run).b.lastFlush == t0 + 1
    ensures Legal(c, t0, more) && Punctual(c, t0, more) && run <= more
    ensures forall j :: |run| <= j < |more| ==> !SendsAt(c, t0, more, j)
    ensures Clock(t0, more) == t0 + 2 * c.timeout - 1
  {
    var tick, skip := Tick(t0 + c.timeout, t0 + c.timeout, Acked), Deliver(Skip, t0 + 2 * c.timeout - 1, Acked);
    var ticked := run + [tick];
    PunctualStep(c, t0, run, tick);
    more := ticked + [skip];
    PunctualStep(c, t0, ticked, skip);
    assert more[..|run|] == run && more[..|run| + 1] == ticked && more[..|run| + 2] == more;
  }

  lemma FlushedOne(s: State, at: int, a: Data)
    requires s.buffer == [a] && s.lastCommitted == 0 && s.attempts == []
    ensures FlushStep(s, Acked, at).buffer == [] && AckedRows(FlushStep(s, Acked, at).attempts) == [a]
  {
    AckedRowsAppend([], Attempt([a], Acked));
  }
}
