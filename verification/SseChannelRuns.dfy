/** Every interleaving of enqueues, stream attachments, takeovers and shutdown on one SSE channel,
    observed where a stream takes items from the ring. */
module SseChannelRuns {
  import opened Wrappers
  import opened Text
  import opened SseChannels

  /** A stream that was attached: its cursor and generation now, and where it started. */
  datatype Client = Client(stream: Stream, start: nat)

  datatype Delivery = Delivery(client: nat, item: Item)

  /** The channel and its streams, with the history of the run: every payload accepted and
      every item taken for sending, in order. */
  datatype State = State(channel: Channel, clients: map<nat, Client>, log: seq<string>, deliveries: seq<Delivery>)

  const START := State(OPENED, map[], [], [])

  datatype Label =
    | Enqueue(payload: string)
    | Attach(client: nat, resume: Option<nat>)
    | Take(client: nat)
    | Shutdown

  predicate Enabled(s: State, l: Label) {
    match l
    case Enqueue(_) => true
    case Attach(client, _) => client !in s.clients
    case Take(client) => client in s.clients && CanTake(s.channel, s.clients[client].stream)
    case Shutdown => true
  }

  function Delivered(client: nat, items: seq<Item>): (r: seq<Delivery>)
    ensures |r| == |items| && forall i :: 0 <= i < |r| ==> r[i] == Delivery(client, items[i])
  {
    seq(|items|, i requires 0 <= i < |items| => Delivery(client, items[i]))
  }

  function Apply(capacity: nat, s: State, l: Label): State
    requires Enabled(s, l)
  {
    match l
    case Enqueue(payload) =>
      s.(channel := Enqueued(s.channel, capacity, payload),
         log := if s.channel.running then s.log + [payload] else s.log)
    case Attach(client, resume) =>
      var (channel, stream) := Attached(s.channel, resume);
      if stream.None? then s
      else s.(channel := channel, clients := s.clients[client := Client(stream.value, stream.value.cursor)])
    case Take(client) =>
      var (channel, stream, items) := Taken(s.channel, s.clients[client].stream);
      s.(channel := channel,
         clients := s.clients[client := s.clients[client].(stream := stream)],
         deliveries := s.deliveries + Delivered(client, items))
    case Shutdown => s.(channel := s.channel.(running := false))
  }

  function Exec(capacity: nat, labels: seq<Label>): State {
    if labels == [] then START
    else
      var s := Exec(capacity, labels[..|labels| - 1]);
      var l := labels[|labels| - 1];
      if Enabled(s, l) then Apply(capacity, s, l) else s
  }

  // ------------------------------------------------------------ the ring abbreviates the log

  /** How many payloads have left the ring: ids 1 to `Evicted(s)`. */
  function Evicted(s: State): int {
    |s.log| - |s.channel.ring|
  }

  /** The last min(n, capacity) entries of the log, numbered from 1 without gaps. */
  ghost predicate IsLogSuffix(capacity: nat, ring: seq<Item>, log: seq<string>) {
    && |ring| == (if |log| < capacity then |log| else capacity)
    && forall i :: 0 <= i < |ring| ==> ring[i] == Item(|log| - |ring| + i + 1, log[|log| - |ring| + i])
  }

  ghost predicate RingIsLogSuffix(capacity: nat, s: State) {
    s.channel.nextEventId == |s.log| + 1 && IsLogSuffix(capacity, s.channel.ring, s.log)
  }

  lemma EnqueueKeepsSuffix(capacity: nat, ring: seq<Item>, log: seq<string>, payload: string)
    requires IsLogSuffix(capacity, ring, log)
    ensures IsLogSuffix(capacity, LastItems(ring + [Item(|log| + 1, payload)], capacity), log + [payload])
  {
  }

  lemma RingPreserved(capacity: nat, s: State, l: Label)
    requires Enabled(s, l) && RingIsLogSuffix(capacity, s)
    ensures RingIsLogSuffix(capacity, Apply(capacity, s, l))
  {
    hide From;
    hide LastItems;
    match l
    case Enqueue(payload) => EnqueueKeepsSuffix(capacity, s.channel.ring, s.log, payload);
    case _ =>
      assert Apply(capacity, s, l).log == s.log;
      assert Apply(capacity, s, l).channel.ring == s.channel.ring;
  }

  lemma {:induction false} FromUnfold(ring: seq<Item>, cursor: nat)
    ensures From(ring, cursor) ==
            if ring == [] then []
            else if ring[0].id >= cursor then [ring[0]] + From(ring[1..], cursor) else From(ring[1..], cursor)
  {
  }

  /** What a stream takes: every item of the ring from its cursor on. */
  lemma {:induction false} FromNumbered(ring: seq<Item>, first: nat, cursor: nat)
    requires forall i :: 0 <= i < |ring| ==> ring[i].id == first + i
    ensures From(ring, cursor) == if cursor <= first then ring
                                  else if cursor - first <= |ring| then ring[cursor - first..] else []
    decreases |ring|
  {
    FromUnfold(ring, cursor);
    hide From;
    if ring != [] {
      FromNumbered(ring[1..], first + 1, cursor);
      if cursor <= first {
        assert ring == [ring[0]] + ring[1..];
      } else if cursor - first <= |ring| {
        assert ring[cursor - first..] == ring[1..][cursor - first - 1..];
      }
    }
  }

  /** The items one critical section takes are the ids from `low` to the newest. */
  function Low(s: State, cursor: nat): int {
    if cursor <= Evicted(s) then Evicted(s) + 1 else cursor
  }

  lemma {:induction false} RingFrom(capacity: nat, s: State, cursor: nat)
    requires RingIsLogSuffix(capacity, s)
    requires s.channel.ring != [] && s.channel.ring[|s.channel.ring| - 1].id >= cursor
    ensures var items := From(s.channel.ring, cursor);
            && cursor <= |s.log|
            && 0 < |items| == |s.log| + 1 - Low(s, cursor)
            && (forall i :: 0 <= i < |items| ==> items[i] == Item(Low(s, cursor) + i, s.log[Low(s, cursor) + i - 1]))
  {
    hide From;
    var ring, first := s.channel.ring, Evicted(s) + 1;
    FromNumbered(ring, first, cursor);
    assert ring[|ring| - 1].id == |s.log|;
    var skipped := if cursor <= first then 0 else cursor - first;
    assert From(ring, cursor) == ring[skipped..];
    forall i | 0 <= i < |ring| - skipped
      ensures ring[skipped..][i] == Item(Low(s, cursor) + i, s.log[Low(s, cursor) + i - 1])
    {
      assert ring[skipped..][i] == ring[skipped + i];
    }
  }

  lemma {:induction false} TakenItems(capacity: nat, s: State, client: nat)
    requires RingIsLogSuffix(capacity, s) && Enabled(s, Take(client))
    ensures var cursor := s.clients[client].stream.cursor;
            var (channel, stream, items) := Taken(s.channel, s.clients[client].stream);
            && cursor <= |s.log|
            && 0 < |items| == |s.log| + 1 - Low(s, cursor)
            && (forall i :: 0 <= i < |items| ==> items[i] == Item(Low(s, cursor) + i, s.log[Low(s, cursor) + i - 1]))
            && stream == s.clients[client].stream.(cursor := |s.log| + 1)
            && channel == s.channel.(nextUndelivered :=
                 if |s.log| + 1 > s.channel.nextUndelivered then |s.log| + 1 else s.channel.nextUndelivered)
  {
    hide From;
    hide RingIsLogSuffix;
    RingFrom(capacity, s, s.clients[client].stream.cursor);
  }

  // ------------------------------------------------------------ what one stream sees

  ghost predicate DeliveredTo(s: State, client: nat, id: nat) {
    exists k :: 0 <= k < |s.deliveries| && s.deliveries[k].client == client && s.deliveries[k].item.id == id
  }

  ghost predicate DeliveredToSome(s: State, id: nat) {
    exists c :: DeliveredTo(s, c, id)
  }

  /** Each delivery carries its payload and lies between its stream's start and cursor. */
  ghost predicate DeliveriesInWindow(s: State) {
    forall k :: 0 <= k < |s.deliveries| ==>
      var d := s.deliveries[k];
      && d.client in s.clients
      && s.clients[d.client].start <= d.item.id < s.clients[d.client].stream.cursor
      && 1 <= d.item.id <= |s.log| && d.item.data == s.log[d.item.id - 1]
  }

  ghost predicate EachStreamIncreasing(s: State) {
    forall j, k :: 0 <= j < k < |s.deliveries| && s.deliveries[j].client == s.deliveries[k].client ==>
      s.deliveries[j].item.id < s.deliveries[k].item.id
  }

  /** An id a stream has gone past without taking it was out of the ring. */
  ghost predicate OnlyEvictedSkipped(s: State) {
    forall c, id :: c in s.clients && s.clients[c].start <= id < s.clients[c].stream.cursor && id > Evicted(s) ==>
      DeliveredTo(s, c, id)
  }

  ghost predicate StreamInvariant(s: State) {
    DeliveriesInWindow(s) && EachStreamIncreasing(s) && OnlyEvictedSkipped(s) && CursorsPastStart(s)
  }

  lemma DeliveredKept(capacity: nat, s: State, l: Label, client: nat, id: nat)
    requires Enabled(s, l) && DeliveredTo(s, client, id)
    ensures DeliveredTo(Apply(capacity, s, l), client, id)
  {
    var k :| 0 <= k < |s.deliveries| && s.deliveries[k].client == client && s.deliveries[k].item.id == id;
    assert Apply(capacity, s, l).deliveries[k] == s.deliveries[k];
  }

  lemma EvictedGrows(capacity: nat, s: State, l: Label)
    requires Enabled(s, l) && RingIsLogSuffix(capacity, s)
    ensures 0 <= Evicted(s) <= Evicted(Apply(capacity, s, l))
  {
    RingPreserved(capacity, s, l);
  }

  /** Everything but taking leaves the deliveries and the cursors of the streams alone. */
  lemma OnlyTakeDelivers(capacity: nat, s: State, l: Label)
    requires Enabled(s, l) && !l.Take?
    ensures var s' := Apply(capacity, s, l);
            && s'.deliveries == s.deliveries && s.log <= s'.log
            && (forall c :: c in s.clients ==> c in s'.clients && s'.clients[c] == s.clients[c])
            && (forall c :: c in s'.clients && c !in s.clients ==> s'.clients[c].start == s'.clients[c].stream.cursor)
  {
    hide LastItems;
  }

  lemma TakeDeliversInWindow(capacity: nat, s: State, client: nat)
    requires Enabled(s, Take(client)) && RingIsLogSuffix(capacity, s)
    requires DeliveriesInWindow(s) && EachStreamIncreasing(s) && s.clients[client].start <= s.clients[client].stream.cursor
    ensures var s' := Apply(capacity, s, Take(client));
            DeliveriesInWindow(s') && EachStreamIncreasing(s') && s'.log == s.log && s'.channel.ring == s.channel.ring
  {
    hide Taken;
    hide RingIsLogSuffix;
    TakenItems(capacity, s, client);
    EvictedGrows(capacity, s, Take(client));
    var s' := Apply(capacity, s, Take(client));
    forall k | |s.deliveries| <= k < |s'.deliveries|
      ensures s'.deliveries[k].client == client
      ensures s'.deliveries[k].item.id == Low(s, s.clients[client].stream.cursor) + (k - |s.deliveries|)
    {
    }
  }

  lemma TakeSkips(capacity: nat, s: State, client: nat, id: nat)
    requires Enabled(s, Take(client)) && RingIsLogSuffix(capacity, s)
    requires s.clients[client].stream.cursor <= id <= |s.log| && id > Evicted(s)
    ensures DeliveredTo(Apply(capacity, s, Take(client)), client, id)
  {
    hide Taken;
    TakenItems(capacity, s, client);
    var s' := Apply(capacity, s, Take(client));
    var k := |s.deliveries| + (id - Low(s, s.clients[client].stream.cursor));
    assert s'.deliveries[k].client == client && s'.deliveries[k].item.id == id;
  }

  lemma SkippedPreserved(capacity: nat, s: State, l: Label)
    requires Enabled(s, l) && RingIsLogSuffix(capacity, s) && OnlyEvictedSkipped(s)
    ensures OnlyEvictedSkipped(Apply(capacity, s, l))
  {
    hide Apply;
    hide RingIsLogSuffix;
    var s' := Apply(capacity, s, l);
    EvictedGrows(capacity, s, l);
    forall c, id: nat | c in s'.clients && s'.clients[c].start <= id < s'.clients[c].stream.cursor && id > Evicted(s')
      ensures DeliveredTo(s', c, id)
    {
      if l.Take? {
        TakeMovesOneCursor(capacity, s, l.client);
      } else {
        OnlyTakeDelivers(capacity, s, l);
      }
      if c in s.clients && id < s.clients[c].stream.cursor {
        DeliveredKept(capacity, s, l, c, id);
      } else if l.Take? {
        TakeSkips(capacity, s, c, id);
      }
    }
  }

  lemma TakeMovesOneCursor(capacity: nat, s: State, client: nat)
    requires Enabled(s, Take(client)) && RingIsLogSuffix(capacity, s)
    ensures var s' := Apply(capacity, s, Take(client));
            s'.clients == s.clients[client := s.clients[client].(stream := s.clients[client].stream.(cursor := |s.log| + 1))]
  {
    hide Taken;
    TakenItems(capacity, s, client);
  }

  ghost predicate CursorsPastStart(s: State) {
    forall c :: c in s.clients ==> s.clients[c].start <= s.clients[c].stream.cursor
  }

  lemma StreamPreserved(capacity: nat, s: State, l: Label)
    requires Enabled(s, l) && RingIsLogSuffix(capacity, s) && StreamInvariant(s)
    ensures StreamInvariant(Apply(capacity, s, l))
  {
    hide Apply;
    hide OnlyEvictedSkipped;
    hide RingIsLogSuffix;
    SkippedPreserved(capacity, s, l);
    if l.Take? {
      TakeDeliversInWindow(capacity, s, l.client);
      TakeMovesOneCursor(capacity, s, l.client);
      TakenItems(capacity, s, l.client);
    } else {
      OnlyTakeDelivers(capacity, s, l);
    }
  }

  // ------------------------------------------------------------ fresh streams only

  ghost predicate FreshOnly(labels: seq<Label>) {
    forall i :: 0 <= i < |labels| && labels[i].Attach? ==> labels[i].resume.None?
  }

  /** The newest stream's cursor is the watermark; no other stream can take. */
  ghost predicate NewestAtWatermark(s: State) {
    && 1 <= s.channel.nextUndelivered <= |s.log| + 1
    && forall c :: c in s.clients ==>
         && s.clients[c].stream.generation <= s.channel.generation
         && (s.clients[c].stream.generation == s.channel.generation ==>
               s.clients[c].stream.cursor == s.channel.nextUndelivered)
  }

  ghost predicate GenerationsDistinct(s: State) {
    forall c, d :: c in s.clients && d in s.clients && c != d ==>
      s.clients[c].stream.generation != s.clients[d].stream.generation
  }

  ghost predicate WatermarkSplits(s: State) {
    && (forall j, k :: 0 <= j < k < |s.deliveries| ==> s.deliveries[j].item.id < s.deliveries[k].item.id)
    && (forall k :: 0 <= k < |s.deliveries| ==> 1 <= s.deliveries[k].item.id < s.channel.nextUndelivered)
    && (forall id :: 1 <= id < s.channel.nextUndelivered && id > Evicted(s) ==> DeliveredToSome(s, id))
  }

  lemma NewestPreserved(capacity: nat, s: State, l: Label)
    requires Enabled(s, l) && (l.Attach? ==> l.resume.None?)
    requires RingIsLogSuffix(capacity, s) && NewestAtWatermark(s) && GenerationsDistinct(s)
    ensures NewestAtWatermark(Apply(capacity, s, l)) && GenerationsDistinct(Apply(capacity, s, l))
  {
    hide From;
    if l.Take? {
      TakenItems(capacity, s, l.client);
    }
  }

  lemma WatermarkPreserved(capacity: nat, s: State, l: Label)
    requires Enabled(s, l) && (l.Attach? ==> l.resume.None?)
    requires RingIsLogSuffix(capacity, s) && NewestAtWatermark(s) && WatermarkSplits(s)
    ensures WatermarkSplits(Apply(capacity, s, l))
  {
    hide From;
    var s' := Apply(capacity, s, l);
    EvictedGrows(capacity, s, l);
    if l.Take? {
      TakenItems(capacity, s, l.client);
    }
    forall id: nat | 1 <= id < s'.channel.nextUndelivered && id > Evicted(s')
      ensures DeliveredToSome(s', id)
    {
      if id < s.channel.nextUndelivered {
        assert DeliveredToSome(s, id);
        var c :| DeliveredTo(s, c, id);
        DeliveredKept(capacity, s, l, c, id);
      } else {
        TakeSkips(capacity, s, l.client, id);
      }
    }
  }

  // ------------------------------------------------------------ over whole runs

  lemma {:induction false} RunInvariant(capacity: nat, labels: seq<Label>)
    ensures RingIsLogSuffix(capacity, Exec(capacity, labels)) && StreamInvariant(Exec(capacity, labels))
    decreases |labels|
  {
    if labels != [] {
      RunInvariant(capacity, labels[..|labels| - 1]);
      var s, l := Exec(capacity, labels[..|labels| - 1]), labels[|labels| - 1];
      if Enabled(s, l) {
        RingPreserved(capacity, s, l);
        StreamPreserved(capacity, s, l);
      }
    }
  }

  lemma {:induction false} FreshRunInvariant(capacity: nat, labels: seq<Label>)
    requires FreshOnly(labels)
    ensures var s := Exec(capacity, labels); NewestAtWatermark(s) && GenerationsDistinct(s) && WatermarkSplits(s)
    decreases |labels|
  {
    if labels != [] {
      FreshRunInvariant(capacity, labels[..|labels| - 1]);
      RunInvariant(capacity, labels[..|labels| - 1]);
      var s, l := Exec(capacity, labels[..|labels| - 1]), labels[|labels| - 1];
      if Enabled(s, l) {
        NewestPreserved(capacity, s, l);
        WatermarkPreserved(capacity, s, l);
      }
    }
  }

  /** Over any run of fresh streams, an id below the watermark was taken by exactly one stream, or
      was evicted before any stream took it; ids are taken in increasing order; an id at or above
      the watermark has been taken by nobody. */
  lemma WatermarkSplitsIds(capacity: nat, labels: seq<Label>, id: nat)
    requires FreshOnly(labels) && id >= 1
    ensures var s := Exec(capacity, labels);
            && (id < s.channel.nextUndelivered ==> (id <= Evicted(s) || DeliveredToSome(s, id)))
            && (id >= s.channel.nextUndelivered ==> !DeliveredToSome(s, id))
            && (forall c, d :: DeliveredTo(s, c, id) && DeliveredTo(s, d, id) ==> c == d)
            && (forall j, k :: 0 <= j < k < |s.deliveries| ==> s.deliveries[j].item.id < s.deliveries[k].item.id)
  {
    FreshRunInvariant(capacity, labels);
  }

  /** In any run of fresh streams, what the watermark passes in one step without its being taken
      had been evicted before that step. */
  lemma {:induction false} WatermarkPassesOnlyEvicted(capacity: nat, labels: seq<Label>, l: Label, id: nat)
    requires FreshOnly(labels + [l])
    requires var s, s' := Exec(capacity, labels), Exec(capacity, labels + [l]);
             s.channel.nextUndelivered <= id < s'.channel.nextUndelivered
    ensures DeliveredToSome(Exec(capacity, labels + [l]), id) <==> id > Evicted(Exec(capacity, labels))
  {
    assert (labels + [l])[..|labels|] == labels;
    var s, s' := Exec(capacity, labels), Exec(capacity, labels + [l]);
    assert FreshOnly(labels) by {
      forall i | 0 <= i < |labels| && labels[i].Attach?
        ensures labels[i].resume.None?
      {
        assert (labels + [l])[i] == labels[i];
      }
    }
    FreshRunInvariant(capacity, labels);
    RunInvariant(capacity, labels);
    TakenItems(capacity, s, l.client);
    if id > Evicted(s) {
      TakeSkips(capacity, s, l.client, id);
    }
  }

  /** In any run at all, one stream takes strictly increasing ids from its start on, each with the
      payload that was accepted under that id, and goes past an id only if the ring has evicted it. */
  lemma StreamSkipsOnlyEvicted(capacity: nat, labels: seq<Label>, client: nat)
    requires client in Exec(capacity, labels).clients
    ensures var s := Exec(capacity, labels);
            && (forall j, k :: 0 <= j < k < |s.deliveries| && s.deliveries[j].client == client == s.deliveries[k].client ==>
                  s.deliveries[j].item.id < s.deliveries[k].item.id)
            && (forall k :: 0 <= k < |s.deliveries| && s.deliveries[k].client == client ==>
                  var item := s.deliveries[k].item;
                  s.clients[client].start <= item.id <= |s.log| && 1 <= item.id && item.data == s.log[item.id - 1])
            && (forall id :: s.clients[client].start <= id < s.clients[client].stream.cursor && id > Evicted(s) ==>
                  DeliveredTo(s, client, id))
  {
    RunInvariant(capacity, labels);
  }

  /** When a stream's cursor moves, the ids it leaves behind untaken were already out of the ring. */
  lemma TakeSkipsOnlyEvicted(capacity: nat, labels: seq<Label>, client: nat, id: nat)
    requires Enabled(Exec(capacity, labels), Take(client))
    requires var s := Exec(capacity, labels); s.clients[client].stream.cursor <= id <= |s.log|
    ensures DeliveredTo(Exec(capacity, labels + [Take(client)]), client, id) <==> id > Evicted(Exec(capacity, labels))
  {
    assert (labels + [Take(client)])[..|labels|] == labels;
    var s, s' := Exec(capacity, labels), Exec(capacity, labels + [Take(client)]);
    RunInvariant(capacity, labels);
    TakenItems(capacity, s, client);
    if id > Evicted(s) {
      TakeSkips(capacity, s, client, id);
    }
  }

  /** A stream resumed after id `k` starts at `k + 1`, unless `k` is the largest 64-bit number: then
      it starts at 0 and is given the whole ring. */
  lemma {:induction false} ResumeStart(c: Channel, k: nat)
    requires c.running && k < TWO_TO_64
    ensures Attached(c, Some(k)).1.value.cursor == k + 1 <==> k != TWO_TO_64 - 1
    ensures k == TWO_TO_64 - 1 ==> From(c.ring, Attached(c, Some(k)).1.value.cursor) == c.ring
  {
    WholeRing(c.ring);
    hide From;
  }

  lemma {:induction false} WholeRing(ring: seq<Item>)
    ensures From(ring, 0) == ring
    decreases |ring|
  {
    if ring != [] {
      WholeRing(ring[1..]);
    }
  }
}
