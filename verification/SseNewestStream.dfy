/** Which stream of a channel is served: the newest one, with everything from its cursor on that is
    still in the ring, as long as the channel runs. */
module SseNewestStream {
  import opened SseChannels
  import opened SseChannelRuns
  import opened Wrappers

  /** The payloads enqueued before the first shutdown. */
  function Payloads(labels: seq<Label>): seq<string> {
    if labels == [] then []
    else
      var before, l := labels[..|labels| - 1], labels[|labels| - 1];
      Payloads(before) + if l.Enqueue? && Shutdown !in before then [l.payload] else []
  }

  /** The client whose stream was attached last, before the first shutdown. */
  ghost predicate Newest(capacity: nat, labels: seq<Label>, client: nat) {
    labels != []
    && var (before, l) := (labels[..|labels| - 1], labels[|labels| - 1]);
       if l.Attach? && l.client !in Exec(capacity, before).clients && Shutdown !in before then l.client == client
       else Newest(capacity, before, client)
  }

  lemma {:induction false} ExecNext(capacity: nat, labels: seq<Label>, l: Label)
    ensures var s := Exec(capacity, labels);
            Exec(capacity, labels + [l]) == if Enabled(s, l) then Apply(capacity, s, l) else s
  {
    assert (labels + [l])[..|labels|] == labels;
  }

  lemma {:induction false} RunningUntilShutdown(capacity: nat, labels: seq<Label>)
    ensures Exec(capacity, labels).channel.running <==> Shutdown !in labels
    decreases |labels|
  {
    hide From;
    hide LastItems;
    if labels != [] {
      var before, l := labels[..|labels| - 1], labels[|labels| - 1];
      assert before + [l] == labels;
      RunningUntilShutdown(capacity, before);
    }
  }

  /** The log is what was enqueued while the channel ran. */
  lemma {:induction false} LogIsWhatWasEnqueued(capacity: nat, labels: seq<Label>)
    ensures Exec(capacity, labels).log == Payloads(labels)
    decreases |labels|
  {
    hide From;
    hide LastItems;
    if labels != [] {
      var before := labels[..|labels| - 1];
      LogIsWhatWasEnqueued(capacity, before);
      RunningUntilShutdown(capacity, before);
    }
  }

  lemma {:induction false} GenerationStep(capacity: nat, s: State, l: Label, client: nat)
    requires Enabled(s, l) && client in Apply(capacity, s, l).clients
    ensures var (s', attached) := (Apply(capacity, s, l), l.Attach? && s.channel.running);
            && s'.channel.generation == s.channel.generation + (if attached then 1 else 0)
            && if attached && l.client == client then s'.clients[client].stream.generation == s'.channel.generation
               else client in s.clients && s'.clients[client].stream.generation == s.clients[client].stream.generation
  {
    hide From;
    hide LastItems;
  }

  /** No stream is of a later generation than the channel, and only the newest one is of the same. */
  lemma {:induction false} GenerationTells(capacity: nat, labels: seq<Label>, client: nat)
    ensures var s := Exec(capacity, labels);
            && (Newest(capacity, labels, client) ==> client in s.clients)
            && (client in s.clients ==>
                  && s.clients[client].stream.generation <= s.channel.generation
                  && (s.clients[client].stream.generation == s.channel.generation <==> Newest(capacity, labels, client)))
    decreases |labels|
  {
    hide Apply;
    if labels != [] {
      var before, l := labels[..|labels| - 1], labels[|labels| - 1];
      var s, s' := Exec(capacity, before), Exec(capacity, labels);
      GenerationTells(capacity, before, client);
      RunningUntilShutdown(capacity, before);
      if Enabled(s, l) {
        ClientsKept(capacity, s, l, client);
        if client in s'.clients {
          GenerationStep(capacity, s, l, client);
        }
      }
    }
  }

  lemma {:induction false} ClientsKept(capacity: nat, s: State, l: Label, client: nat)
    requires Enabled(s, l)
    ensures client in Apply(capacity, s, l).clients <==> client in s.clients || (l.Attach? && l.client == client && s.channel.running)
  {
    hide From;
    hide LastItems;
  }

  /** While the channel runs, the newest stream is given every id from its cursor on that has not left
      the ring, down to a single one. */
  lemma {:induction false} NewestStreamIsServed(capacity: nat, labels: seq<Label>, client: nat, id: nat)
    requires Newest(capacity, labels, client) && Shutdown !in labels
    requires client in Exec(capacity, labels).clients
    requires Exec(capacity, labels).clients[client].stream.cursor <= id <= |Payloads(labels)|
    ensures DeliveredTo(Exec(capacity, labels + [Take(client)]), client, id) <==> id > Evicted(Exec(capacity, labels))
  {
    hide Exec;
    hide Apply;
    hide From;
    var s := Exec(capacity, labels);
    GenerationTells(capacity, labels, client);
    RunningUntilShutdown(capacity, labels);
    LogIsWhatWasEnqueued(capacity, labels);
    RunInvariant(capacity, labels);
    if id > Evicted(s) {
      LastIsNewest(capacity, s);
    }
    if Enabled(s, Take(client)) {
      TakeSkipsOnlyEvicted(capacity, labels, client, id);
    } else {
      ExecNext(capacity, labels, Take(client));
      NothingPastCursor(s, client, id);
    }
  }

  lemma LastIsNewest(capacity: nat, s: State)
    requires RingIsLogSuffix(capacity, s) && s.channel.ring != []
    ensures s.channel.ring[|s.channel.ring| - 1].id == |s.log|
  {
  }

  lemma NothingPastCursor(s: State, client: nat, id: nat)
    requires DeliveriesInWindow(s) && client in s.clients && s.clients[client].stream.cursor <= id
    ensures !DeliveredTo(s, client, id)
  {
  }

  /** Any other stream, and any stream once the channel was shut down, is given nothing. */
  lemma {:induction false} OthersAreNotServed(capacity: nat, labels: seq<Label>, client: nat)
    requires !Newest(capacity, labels, client) || Shutdown in labels
    ensures Exec(capacity, labels + [Take(client)]) == Exec(capacity, labels)
  {
    hide Exec;
    hide Apply;
    GenerationTells(capacity, labels, client);
    RunningUntilShutdown(capacity, labels);
    ExecNext(capacity, labels, Take(client));
  }
}
