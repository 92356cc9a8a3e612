/** The batcher's steps on values: what each locked section of the batcher does to its state. */
module BatcherSpec {
  import opened BulkData

  /** What the bulk sender reports. A failed send may have applied any items of its payload. */
  datatype Outcome = Acked | Failed(residue: seq<Data>)

  datatype Attempt = Attempt(payload: seq<Data>, outcome: Outcome)

  datatype State = State(buffer: seq<Data>, lastCommitted: int, lastFlush: int, attempts: seq<Attempt>)

  /** `-1 <= lastCommitted < len(buffer)`. */
  predicate Ok(s: State) {
    -1 <= s.lastCommitted < |s.buffer|
  }

  function Committed(s: State): seq<Data>
    requires Ok(s)
  {
    s.buffer[..s.lastCommitted + 1]
  }

  function Tail(s: State): seq<Data>
    requires Ok(s)
  {
    s.buffer[s.lastCommitted + 1..]
  }

  ghost predicate Possible(s: State, o: Outcome)
    requires Ok(s)
  {
    o.Failed? ==> DrawnFrom(o.residue, Committed(s))
  }

  function Min(a: int, b: int): int {
    if a < b then a else b
  }

  function Max(a: int, b: int): int {
    if a < b then b else a
  }

  function FlushStep(s: State, o: Outcome, now: int): (r: State)
    requires Ok(s)
    ensures Ok(r)
  {
    if s.lastCommitted < 0 then s
    else
      var logged := s.(attempts := s.attempts + [Attempt(Committed(s), o)]);
      if o.Failed? then logged
      else logged.(buffer := Tail(s), lastCommitted := -1, lastFlush := now)
  }

  function AddStep(size: nat, s: State, item: Data, o: Outcome, now: int): (r: State)
    requires Ok(s)
    ensures Ok(r)
  {
    var room := if |s.buffer| >= size then FlushStep(s, o, now) else s;
    room.(buffer := room.buffer + [item])
  }

  /** `n` calls of commit at once; none when `n <= 0`. */
  function CommitStep(s: State, n: int): (r: State)
    requires Ok(s)
    ensures Ok(r)
  {
    if n <= 0 then s else s.(lastCommitted := Min(s.lastCommitted + n, |s.buffer| - 1))
  }

  /** `n` calls of rollback at once; none when `n <= 0`. */
  function RollbackStep(s: State, n: int): (r: State)
    requires Ok(s)
    ensures Ok(r)
  {
    if n <= 0 then s else s.(buffer := s.buffer[..Max(s.lastCommitted + 1, |s.buffer| - n)])
  }

  /** One tick of the flush loop: `start` is when the idle time is measured, `now` when a
      successful send ends. */
  function TickStep(timeout: int, s: State, start: int, o: Outcome, now: int): (r: State)
    requires Ok(s)
    ensures Ok(r)
  {
    if timeout > 0 && start - s.lastFlush >= timeout then FlushStep(s, o, now) else s
  }

  /** All rows of acknowledged attempts, in the order they were sent. */
  function AckedRows(attempts: seq<Attempt>): seq<Data> {
    if attempts == [] then []
    else
      var before := AckedRows(attempts[..|attempts|-1]);
      var last := attempts[|attempts|-1];
      if last.outcome.Acked? then before + last.payload else before
  }

  lemma AckedRowsAppend(attempts: seq<Attempt>, a: Attempt)
    ensures AckedRows(attempts + [a]) ==
            if a.outcome.Acked? then AckedRows(attempts) + a.payload else AckedRows(attempts)
  {
    assert (attempts + [a])[..|attempts|] == attempts;
  }
}
