/** The process object, one method for each critical section of its mutex and each operation on a
    channel.  Every method is one step of the multiplexer, and none can crash. */
module AppServer {
  import opened Results
  import opened Multiplexer

  class Process {
    var nextID: int
    var pending: map<int, nat>
    var dead: Option<string>
    var cmd: nat
    var subscribers: set<nat>

    // The channels, and the goroutines that use them.
    var calls: seq<Call>
    var readers: seq<Reader>
    var streams: seq<Stream>
    var lines: seq<Line>

    function State(): Mux
      reads this
    {
      Mux(nextID, pending, dead, cmd, calls, readers, subscribers, streams, lines)
    }

    ghost predicate Valid()
      reads this
    {
      Inv(State())
    }

    constructor ()
      ensures Valid() && State() == STARTED
    {
      nextID, pending, dead, cmd, subscribers := 0, map[], None, 0, {};
      calls, readers, streams, lines := [], [Reading], [], [];
      new;
      RunNeverPanics([]);
    }

    /** A new subprocess takes the place of the last one. */
    method Restart()
      requires Valid()
      modifies this
      ensures Valid() && Next(old(State()), Action.Start) == Does(State())
      ensures dead == None && cmd == old(|readers|) && readers[cmd] == Reading
      ensures pending == old(pending)  // calls of the last subprocess wait on
    {
      StepKeepsInv(State(), Action.Start);
      hide Inv;
      cmd, dead := |readers|, None;
      readers := readers + [Reading];
    }

    method Number() returns (call: nat)
      requires Valid()
      modifies this
      ensures Valid() && Next(old(State()), Action.Number) == Does(State())
      ensures call == old(|calls|) && calls == old(calls) + [Call(nextID, Numbered, FRESH)]
      ensures forall c :: 0 <= c < call ==> calls[c].id != nextID
    {
      StepKeepsInv(State(), Action.Number);
      NumbersBelow(State());
      hide Inv;
      call := |calls|;
      nextID := nextID + 1;
      calls := calls + [Call(nextID, Numbered, FRESH)];
    }

    method Register(call: nat) returns (running: bool)
      requires Valid() && call < |calls| && calls[call].phase.Numbered?
      modifies this
      ensures Valid() && Next(old(State()), Action.Register(call)) == Does(State())
      ensures running == old(dead.None?) && dead == old(dead)
      ensures calls == old(calls)[call := old(calls)[call].(phase := if running then Writing else Refused)]
      ensures pending == if running then old(pending)[old(calls)[call].id := call] else old(pending)
    {
      StepKeepsInv(State(), Action.Register(call));
      hide Inv;
      if dead.Some? {
        calls := calls[call := calls[call].(phase := Refused)];
        return false;
      }
      pending := pending[calls[call].id := call];
      calls := calls[call := calls[call].(phase := Writing)];
      return true;
    }

    /** A write that fails declares the whole process dead. */
    method Write(call: nat, failure: Option<string>)
      requires Valid() && call < |calls| && calls[call].phase.Writing?
      modifies this
      ensures Valid()
      ensures var step := if failure.Some? then WriteFails(call, failure.value) else Wrote(call);
              Next(old(State()), step) == Does(State())
      ensures dead == (if failure.Some? then failure else old(dead)) && pending == old(pending)
      ensures calls == old(calls)[call := old(calls)[call].(phase := if failure.Some? then WriteError else Waiting)]
    {
      StepKeepsInv(State(), if failure.Some? then WriteFails(call, failure.value) else Wrote(call));
      hide Inv;
      if failure.Some? {
        calls := calls[call := calls[call].(phase := WriteError)];
        dead := Some(failure.value);
      } else {
        calls := calls[call := calls[call].(phase := Waiting)];
      }
    }

    method Cancel(call: nat)
      requires Valid() && call < |calls| && calls[call].phase.Waiting?
      modifies this
      ensures Valid() && Next(old(State()), Action.Cancel(call)) == Does(State())
      ensures calls == old(calls)[call := old(calls)[call].(phase := Cancelled)] && pending == old(pending)
    {
      StepKeepsInv(State(), Action.Cancel(call));
      hide Inv;
      calls := calls[call := calls[call].(phase := Cancelled)];
    }

    /** A caller comes back with its reply, or with the news that there will be none. */
    method Receive(call: nat) returns (reply: Option<Line>)
      requires Valid() && call < |calls| && calls[call].phase.Waiting? && Resolved(calls[call])
      modifies this
      ensures Valid() && Next(old(State()), Action.Receive(call)) == Does(State())
      ensures reply.Some? <==> old(calls[call].channel.sent) != []
      ensures reply.Some? ==> old(calls[call].channel.sent) == [reply.value] && reply.value.id == Some(calls[call].id)
      ensures reply.None? ==> old(calls[call].channel.closed)
      ensures calls[call].phase == if reply.Some? then Answered(reply.value) else Woken
    {
      StepKeepsInv(State(), Action.Receive(call));
      WaitingChannel(State(), call);
      hide Inv;
      var channel := calls[call].channel;
      if channel.taken < |channel.sent| {
        reply := Some(channel.sent[channel.taken]);
        channel := channel.(taken := channel.taken + 1);
        calls := calls[call := calls[call].(channel := channel, phase := Answered(reply.value))];
      } else {
        reply := None;
        calls := calls[call := calls[call].(phase := Woken)];
      }
    }

    method Invalidate(reason: string)
      requires Valid()
      modifies this
      ensures Valid() && Next(old(State()), Action.Invalidate(reason)) == Does(State())
      ensures dead == Some(reason) && pending == old(pending) && calls == old(calls)  // nobody is woken yet
    {
      StepKeepsInv(State(), Action.Invalidate(reason));
      hide Inv;
      dead := Some(reason);
    }

    /** Show a line to every subscriber; one that is too slow is disconnected. */
    method Broadcast(reader: nat, line: Line)
      requires Valid() && reader < |readers| && readers[reader].Reading?
      modifies this
      ensures Valid() && Next(old(State()), Action.Broadcast(reader, line)) == Does(State())
      ensures lines == old(lines) + [line] && readers == old(readers)[reader := Parsed(line)]
      ensures |streams| == |old(streams)| && forall i :: 0 <= i < |streams| ==>
                var was, channel := old(streams)[i].channel, streams[i].channel;
                if i !in old(subscribers) then streams[i] == old(streams)[i] && i !in subscribers
                else if |was.sent| - was.taken < 128 then channel == was.(sent := was.sent + [line]) && i in subscribers
                else channel == was.(closed := true) && i !in subscribers
    {
      StepKeepsInv(State(), Action.Broadcast(reader, line));
      SubscribersAreOpen(State());
      hide Inv, ShownTo, KeepingUp;
      Show(line);
      readers := readers[reader := Parsed(line)];
      lines := lines + [line];
    }

    method Show(line: Line)
      requires forall i :: i in subscribers ==> i < |streams|
      modifies this`streams, this`subscribers
      ensures streams == ShownTo(old(streams), old(subscribers), line)
      ensures subscribers == KeepingUp(old(streams), old(subscribers))
    {
      hide Full;
      ghost var was, all := streams, subscribers;
      var todo := subscribers;
      while todo != {}
        invariant todo <= all && |streams| == |was|
        invariant forall i :: 0 <= i < |was| ==>
                    streams[i] == if i in all && i !in todo then Shown(was[i], line) else was[i]
        invariant forall i :: i in subscribers <==>
                    i in all && (i in todo || !Full(was[i].channel, EVENT_BUFFER))
        decreases |todo|
      {
        var subscriber :| subscriber in todo;
        todo := todo - {subscriber};
        var channel := streams[subscriber].channel;
        if !Full(channel, EVENT_BUFFER) {
          streams := streams[subscriber := streams[subscriber].(channel := channel.(sent := channel.sent + [line]))];
        } else {
          subscribers := subscribers - {subscriber};
          streams := streams[subscriber := streams[subscriber].(channel := channel.(closed := true))];
        }
      }
      assert subscribers == KeepingUp(was, all);
      assert streams == ShownTo(was, all, line);
    }

    /** Take the call a line answers, if it answers one, out of the table. */
    method TakeReply(reader: nat) returns (found: bool)
      requires Valid() && reader < |readers| && readers[reader].Parsed?
      modifies this
      ensures Valid() && Next(old(State()), Action.TakeReply(reader)) == Does(State())
      ensures var line := old(readers[reader]).line;
              && (found <==> line.id.Some? && line.id.value in old(pending))
              && (found ==> pending == old(pending) - {line.id.value}
                            && readers[reader] == InHand(line, line.id.value - 1)
                            && 1 <= line.id.value <= |calls|
                            && calls[line.id.value - 1].id == line.id.value)
              && (!found ==> pending == old(pending) && readers[reader] == Reading)
    {
      hide Inv, CallerStep, ObserverStep;
      StepKeepsInv(State(), Action.TakeReply(reader));
      PendingNamesCalls(State());
      var line := readers[reader].line;
      found := line.id.Some? && line.id.value in pending;
      if found {
        readers := readers[reader := InHand(line, pending[line.id.value])];
        pending := pending - {line.id.value};
      } else {
        readers := readers[reader := Reading];
      }
    }

    /** Sending the reply never waits and never meets a closed channel. */
    method Deliver(reader: nat)
      requires Valid() && reader < |readers| && readers[reader].InHand?
      modifies this
      ensures Valid() && Next(old(State()), Action.Deliver(reader)) == Does(State())
      ensures var held := old(readers)[reader];
              && held.call < |calls| && calls[held.call].channel == Channel([held.line], 0, false)
              && calls == old(calls)[held.call := calls[held.call]] && readers == old(readers)[reader := Reading]
    {
      StepKeepsInv(State(), Action.Deliver(reader));
      HeldCallIsUnresolved(State(), reader);
      hide Inv;
      var call := readers[reader].call;
      var channel := calls[call].channel;
      calls := calls[call := calls[call].(channel := channel.(sent := channel.sent + [readers[reader].line]))];
      readers := readers[reader := Reading];
    }

    /** The subprocess is gone.  Its reader takes the whole table, unless the subprocess was replaced. */
    method Fail(reader: nat, reason: string) returns (mine: bool)
      requires Valid() && reader < |readers| && readers[reader].Reading?
      modifies this
      ensures Valid() && Next(old(State()), Action.Fail(reader, reason)) == Does(State())
      ensures mine == (reader == cmd)
      ensures mine ==> readers[reader] == Draining(old(pending)) && pending == map[] && dead == Some(reason)
      ensures !mine ==> readers[reader] == Done && pending == old(pending) && dead == old(dead)
    {
      StepKeepsInv(State(), Action.Fail(reader, reason));
      hide Inv;
      mine := cmd == reader;
      if !mine {
        readers := readers[reader := Done];
        return;
      }
      dead := Some(reason);
      readers := readers[reader := Draining(pending)];
      pending := map[];
    }

    /** Closing a channel of the table taken never meets one that is closed or answered. */
    method CloseOne(reader: nat, id: int)
      requires Valid() && reader < |readers| && readers[reader].Draining? && id in readers[reader].left
      modifies this
      ensures Valid() && Next(old(State()), Action.CloseOne(reader, id)) == Does(State())
      ensures var left := old(readers)[reader].left;
              && 1 <= id <= |calls| && calls[id - 1].channel == Channel([], 0, true)
              && readers == old(readers)[reader := Draining(left - {id})]
    {
      StepKeepsInv(State(), Action.CloseOne(reader, id));
      HeldCallIsUnresolved(State(), reader);
      hide Inv;
      var left := readers[reader].left;
      var call := left[id];
      calls := calls[call := calls[call].(channel := calls[call].channel.(closed := true))];
      readers := readers[reader := Draining(left - {id})];
    }

    method Finish(reader: nat)
      requires Valid() && reader < |readers| && readers[reader] == Draining(map[])
      modifies this
      ensures Valid() && Next(old(State()), Action.Finish(reader)) == Does(State())
      ensures readers == old(readers)[reader := Done] && calls == old(calls)
    {
      StepKeepsInv(State(), Action.Finish(reader));
      hide Inv;
      readers := readers[reader := Done];
    }

    method Subscribe() returns (stream: nat)
      requires Valid()
      modifies this
      ensures Valid() && Next(old(State()), Action.Subscribe) == Does(State())
      ensures stream == old(|streams|) && streams == old(streams) + [Stream(|lines|, FRESH, false)]
      ensures subscribers == old(subscribers) + {stream} && lines == old(lines)
    {
      StepKeepsInv(State(), Action.Subscribe);
      hide Inv;
      stream := |streams|;
      subscribers := subscribers + {stream};
      streams := streams + [Stream(|lines|, FRESH, false)];
    }

    method Unsubscribe(stream: nat)
      requires Valid() && stream < |streams| && !streams[stream].cancelled
      modifies this
      ensures Valid() && Next(old(State()), Action.Unsubscribe(stream)) == Does(State())
      ensures stream !in subscribers && subscribers == old(subscribers) - {stream}
      ensures streams[stream].cancelled && streams[stream].channel == old(streams)[stream].channel.(closed := true)
    {
      StepKeepsInv(State(), Action.Unsubscribe(stream));
      assert Sees(State(), stream);
      SubscribersAreOpen(State());
      hide Inv;
      var gone := streams[stream].(cancelled := true);
      if stream in subscribers {
        subscribers := subscribers - {stream};
        gone := gone.(channel := gone.channel.(closed := true));
      }
      streams := streams[stream := gone];
    }

    /** An observer reads the next line sent to it, or learns that it was disconnected. */
    method Read(stream: nat) returns (line: Option<Line>)
      requires Valid() && stream < |streams|
      requires streams[stream].channel.taken < |streams[stream].channel.sent| || streams[stream].channel.closed
      modifies this
      ensures Valid() && Next(old(State()), Action.Read(stream)) == Does(State())
      ensures line.Some? ==>
                var at := streams[stream].start + old(streams[stream].channel.taken);
                at < |lines| && line.value == lines[at]
      ensures streams[stream].channel.taken == old(streams[stream].channel.taken) + if line.Some? then 1 else 0
      ensures line.None? ==> streams[stream].channel.closed
    {
      StepKeepsInv(State(), Action.Read(stream));
      assert Sees(State(), stream);
      hide Inv;
      var channel := streams[stream].channel;
      if channel.taken < |channel.sent| {
        line := Some(channel.sent[channel.taken]);
        streams := streams[stream := streams[stream].(channel := channel.(taken := channel.taken + 1))];
      } else {
        line := None;
        assert streams[stream := streams[stream]] == streams;
      }
    }
  }

  lemma SubscribersAreOpen(s: Mux)
    requires Inv(s)
    ensures forall i :: i in s.subscribers ==> i < |s.streams| && !s.streams[i].channel.closed
  {
    forall i | i in s.subscribers ensures i < |s.streams| && !s.streams[i].channel.closed {
      assert Sees(s, i);
    }
  }

  lemma NumbersBelow(s: Mux)
    requires Inv(s)
    ensures s.nextID == |s.calls| && forall c :: 0 <= c < |s.calls| ==> s.calls[c].id == c + 1
  {
  }

  lemma PendingNamesCalls(s: Mux)
    requires Inv(s)
    ensures forall id :: id in s.pending ==> 1 <= id <= |s.calls| && s.pending[id] == id - 1 && s.calls[id - 1].id == id
  {
    NumbersBelow(s);
  }

  /** The channel of a waiting call holds at most its own reply, not yet received. */
  lemma WaitingChannel(s: Mux, c: nat)
    requires Inv(s) && c < |s.calls| && s.calls[c].phase.Waiting?
    ensures var ch := s.calls[c].channel;
            && ch.taken == 0 && |ch.sent| <= 1
            && (ch.sent != [] ==> ch.sent[0].id == Some(s.calls[c].id) && !ch.closed)
  {
    var where :| Placed(s, where);
    assert CallAt(s.calls[c], where[c]);
  }
}
