/** The batcher: a committed prefix and an uncommitted tail in one Go slice. Every exported method of
    the Go `Batcher` runs under its lock, so each call is one atomic step. */
module Batching {
  import opened BulkData
  import opened BatcherSpec
  import opened GoSlice

  /** The search engine client as the batcher sees it. It may keep the slices it is handed. */
  class BulkSender {
    ghost var attempts: seq<Attempt>
    ghost var handed: seq<Slice>
    ghost var arrays: set<array<Data>>  // the arrays behind `handed`

    constructor ()
      ensures attempts == [] && handed == [] && arrays == {}
    {
      attempts, handed, arrays := [], [], {};
    }

    method Bulk(payload: Slice) returns (failed: bool, ghost o: Outcome)
      requires payload.Valid()
      modifies this
      ensures attempts == old(attempts) + [Attempt(payload.Contents(), o)]
      ensures handed == old(handed) + [payload]
      ensures arrays == old(arrays) + {payload.arr}
      ensures failed <==> o.Failed?
      ensures o.Failed? ==> DrawnFrom(o.residue, payload.Contents())
    {
      failed := *;
      o := Acked;
      if failed {
        assert DrawnFrom([], payload.Contents());
        ghost var residue: seq<Data> :| DrawnFrom(residue, payload.Contents());
        o := Failed(residue);
      }
      attempts := attempts + [Attempt(payload.Contents(), o)];
      handed := handed + [payload];
      arrays := arrays + {payload.arr};
    }
  }

  /** The slice still reads as `payload` and, within `arr`, ends at or before `frontier`. */
  ghost predicate Frozen(h: Slice, payload: seq<Data>, arr: array<Data>, frontier: int)
    reads h.arr
  {
    && h.Valid()
    && h.Contents() == payload
    && (h.arr == arr ==> h.off + h.len <= frontier)
  }

  class Batcher {
    var buffer: Slice
    var lastCommitted: int
    var lastFlushTime: int
    const bufferSize: nat
    const flushTimeout: int
    const sender: BulkSender

    ghost function Frontier(): int
      reads this
    {
      buffer.off + lastCommitted + 1
    }

    /** Besides the pointer bounds: every payload ever handed out is still what the sender's slice
        reads, and ends at or before the first uncommitted slot of the buffer's array. */
    ghost predicate Valid()
      reads this, sender, buffer.arr, sender.arrays
    {
      && buffer.Valid()
      && -1 <= lastCommitted < buffer.len
      && |sender.handed| == |sender.attempts|
      && (forall k :: 0 <= k < |sender.handed| ==> sender.handed[k].arr in sender.arrays)
      && (forall k :: 0 <= k < |sender.handed| ==>
            Frozen(sender.handed[k], sender.attempts[k].payload, buffer.arr, Frontier()))
    }

    ghost function View(): (s: State)
      requires Valid()
      reads this, sender, buffer.arr, sender.arrays
      ensures Ok(s)
    {
      State(buffer.Contents(), lastCommitted, lastFlushTime, sender.attempts)
    }

    constructor (bufferSize: nat, flushTimeout: int, sender: BulkSender, now: int)
      requires sender.attempts == [] && sender.handed == [] && sender.arrays == {}
      ensures Valid() && fresh(buffer.arr)
      ensures View() == State([], -1, now, [])
      ensures this.bufferSize == bufferSize && this.flushTimeout == flushTimeout && this.sender == sender
    {
      var backing := new Data[bufferSize];
      buffer := Slice(backing, 0, 0);
      lastCommitted := -1;
      lastFlushTime := now;
      this.bufferSize := bufferSize;
      this.flushTimeout := flushTimeout;
      this.sender := sender;
    }

    /** The first part of `flush`: one attempt with the committed prefix. */
    method SendCommitted() returns (failed: bool, ghost o: Outcome)
      requires Valid() && lastCommitted >= 0
      modifies sender
      ensures Valid() && (failed <==> o.Failed?) && Possible(old(View()), o)
      ensures View() == old(View()).(attempts := old(View()).attempts + [Attempt(Committed(old(View())), o)])
      ensures old(sender.handed) <= sender.handed
    {
      var payload := buffer.Take(lastCommitted + 1);
      assert payload.Contents() == Committed(View());
      failed, o := sender.Bulk(payload);
      forall k | 0 <= k < |sender.handed|
        ensures sender.handed[k].arr in sender.arrays
        ensures Frozen(sender.handed[k], sender.attempts[k].payload, buffer.arr, Frontier())
      {
        if k < |old(sender.handed)| {
          assert old(Frozen(sender.handed[k], sender.attempts[k].payload, buffer.arr, Frontier()));
        }
      }
    }

    /** The second part of `flush`: the sent prefix leaves the buffer. */
    method DropCommitted(now: int)
      requires Valid()
      modifies this
      ensures Valid() && buffer.arr == old(buffer.arr)
      ensures View() == old(View()).(buffer := Tail(old(View())), lastCommitted := -1, lastFlush := now)
    {
      ghost var items, frontier := buffer.Contents(), Frontier();
      var sent := lastCommitted + 1;
      buffer := buffer.Drop(sent);
      lastCommitted := -1;
      lastFlushTime := now;
      assert Frontier() == frontier;
      assert buffer.Contents() == items[sent..];
    }

    /** `flush`: sends the committed prefix and keeps the uncommitted tail on success. */
    method Flush(now: int) returns (ghost o: Outcome)
      requires Valid()
      modifies this, sender
      ensures Valid() && buffer.arr == old(buffer.arr)
      ensures View() == FlushStep(old(View()), o, now) && Possible(old(View()), o)
      ensures old(sender.handed) <= sender.handed
    {
      o := Acked;
      if lastCommitted < 0 {
        return;
      }
      var failed;
      failed, o := SendCommitted();
      if failed {
        return;
      }
      DropCommitted(now);
    }

    /** `Add`: flushes first when the buffer is full. */
    method Add(item: Data, now: int) returns (ghost o: Outcome)
      requires Valid()
      modifies this, sender, buffer.arr
      ensures Valid() && (buffer.arr == old(buffer.arr) || fresh(buffer.arr))
      ensures View() == AddStep(bufferSize, old(View()), item, o, now) && Possible(old(View()), o)
      ensures old(sender.handed) <= sender.handed
    {
      o := Acked;
      if buffer.len >= bufferSize {
        o := Flush(now);
      }
      Push(item);
    }

    method Push(item: Data)
      requires Valid()
      modifies this, buffer.arr
      ensures Valid() && (buffer.arr == old(buffer.arr) || fresh(buffer.arr))
      ensures View() == old(View()).(buffer := old(View()).buffer + [item])
    {
      ghost var arr, end := buffer.arr, buffer.off + buffer.len;
      ghost var below := arr[..end];
      forall k | 0 <= k < |sender.handed| && sender.handed[k].arr == arr
        ensures below[sender.handed[k].off..][..sender.handed[k].len] == sender.attempts[k].payload
      {
        assert Frozen(sender.handed[k], sender.attempts[k].payload, arr, Frontier());
      }
      buffer := Append(buffer, item);
      assert arr[..end] == below;
      forall k | 0 <= k < |sender.handed|
        ensures Frozen(sender.handed[k], sender.attempts[k].payload, buffer.arr, Frontier())
      {
        var h := sender.handed[k];
        assert h.arr == arr ==> h.Contents() == below[h.off..][..h.len];
      }
    }

    /** `commit`: one more item of the buffer is committed, if there is one. */
    method Commit()
      requires Valid()
      modifies this
      ensures Valid() && buffer == old(buffer)
      ensures View() == CommitStep(old(View()), 1)
    {
      var nextCommit := lastCommitted + 1;
      if nextCommit >= buffer.len {
        return;
      }
      lastCommitted := nextCommit;
    }

    method CommitN(n: int)
      requires Valid()
      modifies this
      ensures Valid() && buffer == old(buffer)
      ensures View() == CommitStep(old(View()), n)
      ensures lastFlushTime == old(lastFlushTime)
      ensures n <= 0 ==> lastCommitted == old(lastCommitted)
      ensures n > 0 ==>
                var marked := old(lastCommitted) + n;
                lastCommitted == if marked < buffer.len then marked else buffer.len - 1
    {
      var i := 0;
      while i < n
        invariant 0 <= i && (i <= n || i == 0)
        invariant Valid() && buffer == old(buffer)
        invariant View() == CommitStep(old(View()), i)
      {
        Commit();
        i := i + 1;
      }
    }

    /** `rollback`: drops the latest item unless it is committed. */
    method Rollback()
      requires Valid()
      modifies this
      ensures Valid() && buffer.arr == old(buffer.arr)
      ensures View() == RollbackStep(old(View()), 1)
    {
      if buffer.len == 0 {
        return;
      }
      var lastIndex := buffer.len - 1;
      if lastIndex <= lastCommitted {
        return;
      }
      buffer := buffer.Take(lastIndex);
      assert buffer.Contents() == old(buffer.Contents())[..lastIndex];
    }

    method RollbackN(n: int)
      requires Valid()
      modifies this
      ensures Valid() && buffer.arr == old(buffer.arr)
      ensures View() == RollbackStep(old(View()), n)
      ensures lastCommitted == old(lastCommitted) && lastFlushTime == old(lastFlushTime)
      ensures n <= 0 ==> buffer == old(buffer)
      ensures n > 0 ==>
                var keep := if lastCommitted + 1 > old(buffer.len) - n then lastCommitted + 1 else old(buffer.len) - n;
                buffer.Contents() == old(buffer.Contents())[..keep]
    {
      var i := 0;
      while i < n
        invariant 0 <= i && (i <= n || i == 0)
        invariant Valid() && buffer.arr == old(buffer.arr) && (n <= 0 ==> buffer == old(buffer))
        invariant View() == RollbackStep(old(View()), i)
      {
        Rollback();
        i := i + 1;
      }
    }

    /** The locked section of one tick of the flush loop. */
    method Tick(start: int, now: int) returns (ghost o: Outcome)
      requires Valid()
      modifies this, sender
      ensures Valid() && buffer.arr == old(buffer.arr)
      ensures View() == TickStep(flushTimeout, old(View()), start, o, now) && Possible(old(View()), o)
      ensures old(sender.handed) <= sender.handed
    {
      o := Acked;
      var idle := start - lastFlushTime;
      var shouldFlush := flushTimeout > 0 && idle >= flushTimeout;
      if shouldFlush {
        o := Flush(now);
      }
    }
  }

  /** No payload that was ever handed to the sender is overwritten: whatever calls lie in between,
      its slice still reads as it did. */
  twostate lemma PayloadsAreNeverOverwritten(b: Batcher)
    requires old(b.Valid()) && b.Valid()
    requires old(b.sender.handed) <= b.sender.handed && old(b.sender.attempts) <= b.sender.attempts
    ensures forall k :: 0 <= k < |old(b.sender.handed)| ==>
              b.sender.handed[k].Contents() == old(b.sender.handed[k].Contents())
  {
    forall k | 0 <= k < |old(b.sender.handed)|
      ensures b.sender.handed[k].Contents() == old(b.sender.handed[k].Contents())
    {
      assert b.sender.handed[k] == old(b.sender.handed[k]);
      assert old(Frozen(b.sender.handed[k], b.sender.attempts[k].payload, b.buffer.arr, b.Frontier()));
    }
  }
}
