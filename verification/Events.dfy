/** The log buffers a freshly opened or reconnecting view is filled from. */
module Events {
  import opened Wrappers

  datatype LogEvent = LogEvent(at: int, message: string, priority: string, unit: string, cursor: string)

  datatype Operation = Publish(serviceId: string, event: LogEvent) | Forget(serviceId: string)

  /** What was published to a service since it was last forgotten: the reference the buffers are
      compared with. */
  ghost function Published(operations: seq<Operation>, id: string): seq<LogEvent> {
    if operations == [] then []
    else
      var before, last := Published(operations[..|operations| - 1], id), operations[|operations| - 1];
      if last.serviceId != id then before
      else if last.Publish? then before + [last.event]
      else []
  }

  lemma PublishedSnoc(operations: seq<Operation>, last: Operation, id: string)
    ensures Published(operations + [last], id) ==
            if last.serviceId != id then Published(operations, id)
            else if last.Publish? then Published(operations, id) + [last.event] else []
  {
    assert (operations + [last])[..|operations|] == operations;
  }

  function LastOf<T>(s: seq<T>, n: nat): (r: seq<T>)
    ensures |r| == if n <= |s| then n else |s|
  {
    if n <= |s| then s[|s| - n..] else s
  }

  lemma LastOfPush<T>(s: seq<T>, x: T, capacity: nat)
    requires capacity >= 1
    ensures var held := LastOf(s, capacity);
            LastOf(s + [x], capacity) == (if |held| >= capacity then held[1..] else held) + [x]
  {
  }

  lemma LastOfLast<T>(s: seq<T>, n: nat, m: nat)
    ensures LastOf(LastOf(s, n), m) == LastOf(s, if m <= n then m else n)
  {
  }

  function PositionOf(lines: seq<LogEvent>, cursor: string): (i: nat)
    ensures i <= |lines|
    ensures i < |lines| ==> lines[i].cursor == cursor
    ensures forall j :: 0 <= j < i ==> lines[j].cursor != cursor
  {
    if lines == [] || lines[0].cursor == cursor then 0 else 1 + PositionOf(lines[1..], cursor)
  }

  /** The lines after the first one with this cursor, or all of them when none has it. */
  function AfterCursor(lines: seq<LogEvent>, cursor: string): seq<LogEvent> {
    var i := PositionOf(lines, cursor);
    if i < |lines| then lines[i + 1..] else lines
  }

  predicate DistinctCursors(lines: seq<LogEvent>) {
    forall i, j :: 0 <= i < j < |lines| ==> lines[i].cursor != lines[j].cursor
  }

  class Bus {
    var logBuffers: map<string, seq<LogEvent>>
    const bufferCapacity: nat
    ghost var operations: seq<Operation>

    function Held(id: string): seq<LogEvent>
      reads this
    {
      if id in logBuffers then logBuffers[id] else []
    }

    /** Every buffer holds the last lines published to its service, as many as fit. */
    ghost predicate Valid()
      reads this
    {
      bufferCapacity >= 1 && forall id :: Held(id) == LastOf(Published(operations, id), bufferCapacity)
    }

    constructor (bufferCapacity: nat)
      ensures Valid() && operations == []
      ensures this.bufferCapacity == if bufferCapacity == 0 then 1 else bufferCapacity
    {
      this.bufferCapacity := if bufferCapacity == 0 then 1 else bufferCapacity;
      logBuffers := map[];
      operations := [];
    }

    method PublishLog(serviceId: string, event: LogEvent)
      requires Valid()
      modifies this
      ensures Valid() && operations == old(operations) + [Publish(serviceId, event)]
      ensures Held(serviceId) == LastOf(Published(old(operations), serviceId) + [event], bufferCapacity)
      ensures forall id :: id != serviceId ==> Held(id) == old(Held(id))
    {
      hide Published, LastOf;
      LastOfPush(Published(operations, serviceId), event, bufferCapacity);
      forall id {
        PublishedSnoc(operations, Publish(serviceId, event), id);
      }
      var buffer := if serviceId in logBuffers then logBuffers[serviceId] else [];
      assert buffer == Held(serviceId);
      if |buffer| >= bufferCapacity {
        buffer := buffer[1..];
      }
      buffer := buffer + [event];
      logBuffers := logBuffers[serviceId := buffer];
      operations := operations + [Publish(serviceId, event)];
    }

    method ForgetService(serviceId: string)
      requires Valid()
      modifies this
      ensures Valid() && operations == old(operations) + [Forget(serviceId)]
      ensures Held(serviceId) == []
      ensures forall id :: id != serviceId ==> Held(id) == old(Held(id))
    {
      hide Published;
      forall id {
        PublishedSnoc(operations, Forget(serviceId), id);
      }
      logBuffers := logBuffers - {serviceId};
      operations := operations + [Forget(serviceId)];
    }

    /** The most recent lines, oldest first. */
    method Backfill(serviceId: string, limit: nat) returns (lines: seq<LogEvent>)
      requires Valid()
      ensures lines ==
              LastOf(Published(operations, serviceId), if limit <= bufferCapacity then limit else bufferCapacity)
    {
      LastOfLast(Published(operations, serviceId), bufferCapacity, limit);
      if serviceId !in logBuffers {
        assert Held(serviceId) == [];
        return [];
      }
      var buffer := logBuffers[serviceId];
      assert buffer == Held(serviceId);
      var skip := if |buffer| >= limit then |buffer| - limit else 0;
      lines := buffer[skip..];
    }

    /** What a client that stopped at a cursor is given. */
    method BackfillAfterCursor(serviceId: string, cursor: string) returns (lines: seq<LogEvent>)
      requires Valid()
      ensures lines == AfterCursor(LastOf(Published(operations, serviceId), bufferCapacity), cursor)
      ensures var all := Published(operations, serviceId);
              forall k :: 0 <= k < |all| && all[k].cursor == cursor ==>
                (all[..k + 1] + lines == all <==> Resumable(all, k, bufferCapacity))
    {
      hide Published, LastOf, Resumable;
      if serviceId !in logBuffers {
        assert Held(serviceId) == [];
        lines := [];
      } else {
        var buffer := logBuffers[serviceId];
        assert buffer == Held(serviceId);
        var index := PositionOf(buffer, cursor);
        if index < |buffer| {
          lines := buffer[index + 1..];
        } else {
          lines := buffer;
        }
      }
      ghost var all := Published(operations, serviceId);
      forall k | 0 <= k < |all| && all[k].cursor == cursor
        ensures all[..k + 1] + lines == all <==> Resumable(all, k, bufferCapacity)
      {
        ResumeIsExact(all, k, bufferCapacity);
      }
    }
  }

  // ----- resuming -----

  /** Where the held part of a history begins. */
  function HeldFrom(all: seq<LogEvent>, capacity: nat): (at: nat)
    ensures at <= |all| && LastOf(all, capacity) == all[at..]
  {
    if capacity <= |all| then |all| - capacity else 0
  }

  /** No held line before `end` has the cursor of line `k`. */
  predicate NoneShares(all: seq<LogEvent>, at: nat, end: nat, k: nat)
    requires end <= |all| && k < |all|
  {
    forall j :: at <= j < end ==> all[j].cursor != all[k].cursor
  }

  /** Line `k` is the first held one with its cursor; or it was the last to go and no held one has it. */
  predicate Resumable(all: seq<LogEvent>, k: nat, capacity: nat)
    requires k < |all|
  {
    var at := HeldFrom(all, capacity);
    || (at <= k && NoneShares(all, at, k, k))
    || (at == k + 1 && NoneShares(all, at, |all|, k))
  }

  lemma TailsDiffer(all: seq<LogEvent>, i: nat, k: nat)
    requires i <= |all| && k <= |all|
    ensures all[..k] + all[i..] == all <==> i == k
  {
    if i == k {
      assert all[..k] + all[i..] == all;
    } else {
      assert |all[..k] + all[i..]| == k + |all| - i;
    }
  }

  /** The position found in the held part is the first line with this cursor. */
  lemma FirstHeld(all: seq<LogEvent>, at: nat, k: nat)
    requires at <= |all| && k < |all|
    ensures var i := at + PositionOf(all[at..], all[k].cursor);
            && i <= |all| && NoneShares(all, at, i, k)
            && (i < |all| ==> all[i].cursor == all[k].cursor)
            && AfterCursor(all[at..], all[k].cursor) == all[if i < |all| then i + 1 else at..]
  {
    var held := all[at..];
    var i := PositionOf(held, all[k].cursor);
    forall j | at <= j < at + i ensures all[j].cursor != all[k].cursor {
      assert held[j - at] == all[j];
    }
    if i < |held| {
      assert held[i + 1..] == all[at + i + 1..];
    }
  }

  /** Resuming after a line gives exactly what was published after it, without a gap or a repeat, when
      it is the first held line with its cursor, or was the last line to leave the buffer and no held
      one has its cursor, and in no other case. */
  lemma ResumeIsExact(all: seq<LogEvent>, k: nat, capacity: nat)
    requires k < |all|
    ensures all[..k + 1] + AfterCursor(LastOf(all, capacity), all[k].cursor) == all <==> Resumable(all, k, capacity)
  {
    hide AfterCursor, LastOf;
    var at := HeldFrom(all, capacity);
    FirstHeld(all, at, k);
    var i := at + PositionOf(all[at..], all[k].cursor);
    TailsDiffer(all, if i < |all| then i + 1 else at, k + 1);
  }

  /** With distinct cursors that is when the line is held or was the last one to leave the buffer. */
  lemma DistinctResume(all: seq<LogEvent>, k: nat, capacity: nat)
    requires DistinctCursors(all) && k < |all|
    ensures Resumable(all, k, capacity) <==> |all| <= k + 1 + capacity
  {
  }

  /** A line that shares its cursor with an earlier one that is still held is handed out a second time. */
  lemma SharedCursorRepeats(all: seq<LogEvent>, j: nat, k: nat, capacity: nat)
    requires HeldFrom(all, capacity) <= j < k < |all| && all[j].cursor == all[k].cursor
    ensures all[k] in AfterCursor(LastOf(all, capacity), all[k].cursor)
  {
    hide AfterCursor, LastOf;
    var at := HeldFrom(all, capacity);
    FirstHeld(all, at, k);
    var i := at + PositionOf(all[at..], all[k].cursor);
    assert i <= j;
    assert all[i + 1..][k - i - 1] == all[k];
  }
}
