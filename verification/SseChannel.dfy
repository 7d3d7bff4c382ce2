/** The per-session SSE channel: a bounded replay ring, a never-delivered watermark, one cursor per
    stream and a generation counter by which the newest stream wins. */
module SseChannels {
  import opened Wrappers
  import opened Text

  datatype Item = Item(id: nat, data: string)

  /** The channel's fields. */
  datatype Channel = Channel(running: bool, ring: seq<Item>, nextEventId: nat, nextUndelivered: nat, generation: nat)

  const OPENED := Channel(true, [], 1, 1, 0)

  /** What a stream remembers between its critical sections. */
  datatype Stream = Stream(generation: nat, cursor: nat)

  // ------------------------------------------------------------ the critical sections as functions

  function LastItems(ring: seq<Item>, capacity: nat): seq<Item> {
    if |ring| > capacity then ring[|ring| - capacity..] else ring
  }

  function Enqueued(c: Channel, capacity: nat, payload: string): Channel {
    if !c.running then c
    else c.(ring := LastItems(c.ring + [Item(c.nextEventId, payload)], capacity), nextEventId := c.nextEventId + 1)
  }

  /** Where a new stream starts: after the id the client gives, or at the watermark.
      `resume` is the number read from Last-Event-ID. */
  function StartCursor(c: Channel, resume: Option<nat>): nat {
    if resume.Some? then (resume.value + 1) % TWO_TO_64 else c.nextUndelivered
  }

  function Attached(c: Channel, resume: Option<nat>): (Channel, Option<Stream>) {
    if !c.running then (c, None)
    else (c.(generation := c.generation + 1), Some(Stream(c.generation + 1, StartCursor(c, resume))))
  }

  /** The ring from the first item at or past the cursor. */
  function From(ring: seq<Item>, cursor: nat): (items: seq<Item>)
    ensures forall i :: 0 <= i < |items| ==> items[i] in ring && items[i].id >= cursor
  {
    if ring == [] then []
    else if ring[0].id >= cursor then [ring[0]] + From(ring[1..], cursor)
    else From(ring[1..], cursor)
  }

  /** The wait is over because there is something to send. */
  predicate CanTake(c: Channel, s: Stream) {
    && c.running && c.generation == s.generation
    && c.ring != [] && c.ring[|c.ring| - 1].id >= s.cursor
  }

  function Taken(c: Channel, s: Stream): (Channel, Stream, seq<Item>) {
    var items := From(c.ring, s.cursor);
    if items == [] then (c, s, [])
    else
      var cursor := items[|items| - 1].id + 1;
      (if cursor > c.nextUndelivered then c.(nextUndelivered := cursor) else c, s.(cursor := cursor), items)
  }

  method SelectFrom(ring: seq<Item>, cursor: nat) returns (pending: seq<Item>)
    ensures pending == From(ring, cursor)
  {
    pending := [];
    assert ring[0..] == ring;
    for i := 0 to |ring|
      invariant From(ring, cursor) == pending + From(ring[i..], cursor)
    {
      assert ring[i..][1..] == ring[i + 1..];
      ghost var before := pending;
      if ring[i].id >= cursor {
        pending := pending + [ring[i]];
        assert before + ([ring[i]] + From(ring[i + 1..], cursor)) == pending + From(ring[i + 1..], cursor);
      }
    }
  }

  // ------------------------------------------------------------ the channel object

  class SseChannel {
    const capacity: nat
    var running: bool
    var ring: seq<Item>
    var nextEventId: nat
    var nextUndelivered: nat
    var streamGeneration: nat

    ghost function Value(): Channel
      reads this
    {
      Channel(running, ring, nextEventId, nextUndelivered, streamGeneration)
    }

    constructor (replayBufferSize: nat)
      ensures Value() == OPENED && capacity == replayBufferSize
    {
      capacity := replayBufferSize;
      running, ring, nextEventId, nextUndelivered, streamGeneration := true, [], 1, 1, 0;
    }

    method Enqueue(payload: string)
      modifies this
      ensures Value() == Enqueued(old(Value()), capacity, payload)
    {
      if !running {
        return;
      }
      ring := ring + [Item(nextEventId, payload)];
      nextEventId := nextEventId + 1;
      ghost var full := ring;
      while |ring| > capacity
        invariant |ring| <= |full| && ring == full[|full| - |ring|..]
        invariant |full| <= capacity ==> ring == full
        invariant |full| > capacity ==> |ring| >= capacity
        invariant running && nextEventId == old(nextEventId) + 1
        invariant nextUndelivered == old(nextUndelivered) && streamGeneration == old(streamGeneration)
      {
        ring := ring[1..];
      }
    }

    method AttachStream(resume: Option<nat>) returns (stream: Option<Stream>, lastAssigned: int)
      modifies this
      ensures (Value(), stream) == Attached(old(Value()), resume)
      ensures stream.Some? ==> lastAssigned == nextEventId - 1
    {
      if !running {
        return None, 0;
      }
      streamGeneration := streamGeneration + 1;
      lastAssigned := nextEventId - 1;
      var cursor := if resume.Some? then (resume.value + 1) % TWO_TO_64 else nextUndelivered;
      stream := Some(Stream(streamGeneration, cursor));
    }

    method TakePending(s: Stream) returns (s': Stream, pending: seq<Item>)
      requires CanTake(Value(), s)
      modifies this
      ensures (Value(), s', pending) == Taken(old(Value()), s)
    {
      pending := SelectFrom(ring, s.cursor);
      s' := s;
      if pending != [] {
        s' := s.(cursor := pending[|pending| - 1].id + 1);
        if s'.cursor > nextUndelivered {
          nextUndelivered := s'.cursor;
        }
      }
    }

    method Shutdown()
      modifies this
      ensures Value() == old(Value()).(running := false)
    {
      running := false;
    }
  }
}
