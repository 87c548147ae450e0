/** One app-server process shared by many callers and observers.  A step is one critical section of the
    process mutex, or one channel operation outside it; a run is any interleaving of such steps by the
    callers, the readers of this and earlier subprocesses, the observers, and whoever invalidates or
    restarts the process. */
module Multiplexer {
  import opened Results

  const EVENT_BUFFER := 128
  const REPLY_BUFFER := 1

  // ---------------------------------------------------------------- channels

  /** What an operation does: it waits, it crashes the program, or it leads to a new state. */
  datatype Op<T> = Blocks | Panics | Does(value: T)

  /** A bounded channel: everything ever sent, how much of it was received, and whether it is closed. */
  datatype Channel = Channel(sent: seq<Line>, taken: nat, closed: bool)

  const FRESH := Channel([], 0, false)

  /** A line of output; one that is not an envelope with an identifier has none. */
  datatype Line = Line(id: Option<int>, text: string)

  predicate Full(ch: Channel, capacity: nat) {
    |ch.sent| - ch.taken >= capacity
  }

  function Sending(ch: Channel, capacity: nat, line: Line): Op<Channel> {
    if ch.closed then Panics
    else if Full(ch, capacity) then Blocks
    else Does(ch.(sent := ch.sent + [line]))
  }

  function Closing(ch: Channel): Op<Channel> {
    if ch.closed then Panics else Does(ch.(closed := true))
  }

  /** Receiving takes the next line, or learns that there will be none. */
  function Receiving(ch: Channel): Op<(Channel, Option<Line>)> {
    if ch.taken < |ch.sent| then Does((ch.(taken := ch.taken + 1), Some(ch.sent[ch.taken])))
    else if ch.closed then Does((ch, None))
    else Blocks
  }

  /** What a closed or full channel does to its users. */
  lemma ChannelRules(ch: Channel, capacity: nat, line: Line)
    ensures Sending(ch, capacity, line) == Panics <==> ch.closed
    ensures Sending(ch, capacity, line) == Blocks <==> !ch.closed && |ch.sent| >= ch.taken + capacity
    ensures Closing(ch) == Panics <==> ch.closed
    ensures Receiving(ch) == Blocks <==> !ch.closed && ch.taken >= |ch.sent|
  {
  }

  // ---------------------------------------------------------------- state

  datatype Phase =
    | Numbered                // has its identifier
    | Refused                 // found the process dead
    | Writing                 // is in the table, and writes its request
    | Waiting
    | WriteError
    | Cancelled
    | Answered(reply: Line)
    | Woken                   // saw its channel closed

  datatype Call = Call(id: int, phase: Phase, channel: Channel)

  /** Where the reader of one subprocess is. */
  datatype Reader =
    | Reading
    | Parsed(line: Line)                      // has shown a line to the observers
    | InHand(line: Line, call: nat)           // has taken a call out of the table for this line
    | Draining(left: map<int, nat>)           // has taken the table, and closes its channels
    | Done

  /** An observer: how many lines had gone by when it subscribed, and its channel. */
  datatype Stream = Stream(start: nat, channel: Channel, cancelled: bool)

  datatype Mux = Mux(
    nextID: int,
    pending: map<int, nat>,
    dead: Option<string>,
    cmd: nat,                     // the current subprocess, which is that of the latest reader
    calls: seq<Call>,
    readers: seq<Reader>,
    subscribers: set<nat>,
    streams: seq<Stream>,
    lines: seq<Line>              // every line shown to the observers, of all subprocesses
  )

  const STARTED := Mux(0, map[], None, 0, [], [Reading], {}, [], [])

  // ---------------------------------------------------------------- steps

  datatype Action =
    | Start
    | Number
    | Register(call: nat)
    | Wrote(call: nat)
    | WriteFails(call: nat, reason: string)
    | Cancel(call: nat)
    | Receive(call: nat)
    | Invalidate(reason: string)
    | Broadcast(reader: nat, line: Line)
    | TakeReply(reader: nat)
    | Deliver(reader: nat)
    | Fail(reader: nat, reason: string)
    | CloseOne(reader: nat, id: int)
    | Finish(reader: nat)
    | Subscribe
    | Unsubscribe(stream: nat)
    | Read(stream: nat)

  function Enter(s: Mux, c: nat, phase: Phase): Mux
    requires c < |s.calls|
  {
    s.(calls := s.calls[c := s.calls[c].(phase := phase)])
  }

  function Go(s: Mux, r: nat, reader: Reader): Mux
    requires r < |s.readers|
  {
    s.(readers := s.readers[r := reader])
  }

  /** The steps of callers. */
  function CallerStep(s: Mux, a: Action): Op<Mux> {
    match a
    case Number =>
      Does(s.(nextID := s.nextID + 1, calls := s.calls + [Call(s.nextID + 1, Numbered, FRESH)]))
    case Register(c) =>
      if c >= |s.calls| || s.calls[c].phase != Numbered then Blocks
      else if s.dead.Some? then Does(Enter(s, c, Refused))
      else Does(Enter(s, c, Writing).(pending := s.pending[s.calls[c].id := c]))
    case Wrote(c) =>
      if c >= |s.calls| || s.calls[c].phase != Writing then Blocks else Does(Enter(s, c, Waiting))
    case WriteFails(c, reason) =>
      if c >= |s.calls| || s.calls[c].phase != Writing then Blocks
      else Does(Enter(s, c, WriteError).(dead := Some(reason)))
    case Cancel(c) =>
      if c >= |s.calls| || s.calls[c].phase != Waiting then Blocks else Does(Enter(s, c, Cancelled))
    case Receive(c) =>
      if c >= |s.calls| || s.calls[c].phase != Waiting then Blocks
      else
        (match Receiving(s.calls[c].channel)
         case Does((ch, got)) =>
           var phase := if got.Some? then Answered(got.value) else Woken;
           Does(s.(calls := s.calls[c := s.calls[c].(channel := ch, phase := phase)]))
         case Panics => Panics
         case Blocks => Blocks)
    case _ => Blocks
  }

  /** The steps of readers, but for showing a line. */
  function ReaderStep(s: Mux, a: Action): Op<Mux> {
    match a
    case TakeReply(r) =>
      if r >= |s.readers| || !s.readers[r].Parsed? then Blocks
      else
        var line := s.readers[r].line;
        if line.id.Some? && line.id.value in s.pending then
          Does(Go(s, r, InHand(line, s.pending[line.id.value])).(pending := s.pending - {line.id.value}))
        else Does(Go(s, r, Reading))
    case Deliver(r) =>
      if r >= |s.readers| || !s.readers[r].InHand? || s.readers[r].call >= |s.calls| then Blocks
      else
        var c := s.readers[r].call;
        (match Sending(s.calls[c].channel, REPLY_BUFFER, s.readers[r].line)
         case Does(ch) => Does(Go(s, r, Reading).(calls := s.calls[c := s.calls[c].(channel := ch)]))
         case Panics => Panics
         case Blocks => Blocks)
    case Fail(r, reason) =>
      if r >= |s.readers| || !s.readers[r].Reading? then Blocks
      else if s.cmd != r then Does(Go(s, r, Done))
      else Does(Go(s, r, Draining(s.pending)).(dead := Some(reason), pending := map[]))
    case CloseOne(r, id) =>
      if r >= |s.readers| || !s.readers[r].Draining? || id !in s.readers[r].left
         || s.readers[r].left[id] >= |s.calls| then Blocks
      else
        var left := s.readers[r].left;
        var c := left[id];
        (match Closing(s.calls[c].channel)
         case Does(ch) => Does(Go(s, r, Draining(left - {id})).(calls := s.calls[c := s.calls[c].(channel := ch)]))
         case Panics => Panics
         case Blocks => Blocks)
    case Finish(r) =>
      if r >= |s.readers| || s.readers[r] != Draining(map[]) then Blocks else Does(Go(s, r, Done))
    case _ => Blocks
  }

  /** A subscriber shown a line: it gets it, or is disconnected for being slow. */
  function Shown(stream: Stream, line: Line): Stream {
    if Full(stream.channel, EVENT_BUFFER) then stream.(channel := stream.channel.(closed := true))
    else stream.(channel := stream.channel.(sent := stream.channel.sent + [line]))
  }

  function ShownTo(streams: seq<Stream>, subscribers: set<nat>, line: Line): (r: seq<Stream>)
    ensures |r| == |streams|
    ensures forall i :: 0 <= i < |streams| ==> r[i] == if i in subscribers then Shown(streams[i], line) else streams[i]
  {
    seq(|streams|, i requires 0 <= i < |streams| => if i in subscribers then Shown(streams[i], line) else streams[i])
  }

  function KeepingUp(streams: seq<Stream>, subscribers: set<nat>): set<nat> {
    set i | i in subscribers && (i < |streams| ==> !Full(streams[i].channel, EVENT_BUFFER))
  }

  /** The steps about observers. */
  function ObserverStep(s: Mux, a: Action): Op<Mux> {
    match a
    case Broadcast(r, line) =>
      if r >= |s.readers| || !s.readers[r].Reading? then Blocks
      else if exists i :: i in s.subscribers && i < |s.streams| && s.streams[i].channel.closed then Panics
      else Does(Go(s, r, Parsed(line)).(
                streams := ShownTo(s.streams, s.subscribers, line),
                subscribers := KeepingUp(s.streams, s.subscribers),
                lines := s.lines + [line]))
    case Subscribe =>
      Does(s.(subscribers := s.subscribers + {|s.streams|}, streams := s.streams + [Stream(|s.lines|, FRESH, false)]))
    case Unsubscribe(i) =>
      if i >= |s.streams| || s.streams[i].cancelled then Blocks
      else
        var gone := s.streams[i].(cancelled := true);
        if i !in s.subscribers then Does(s.(streams := s.streams[i := gone]))
        else
          (match Closing(gone.channel)
           case Does(ch) =>
             Does(s.(streams := s.streams[i := gone.(channel := ch)], subscribers := s.subscribers - {i}))
           case Panics => Panics
           case Blocks => Blocks)
    case Read(i) =>
      if i >= |s.streams| then Blocks
      else
        (match Receiving(s.streams[i].channel)
         case Does((ch, _)) => Does(s.(streams := s.streams[i := s.streams[i].(channel := ch)]))
         case Panics => Panics
         case Blocks => Blocks)
    case _ => Blocks
  }

  function Next(s: Mux, a: Action): Op<Mux> {
    match a
    case Start => Does(s.(cmd := |s.readers|, dead := None, readers := s.readers + [Reading]))
    case Invalidate(reason) => Does(s.(dead := Some(reason)))
    case Number => CallerStep(s, a)
    case Register(_) => CallerStep(s, a)
    case Wrote(_) => CallerStep(s, a)
    case WriteFails(_, _) => CallerStep(s, a)
    case Cancel(_) => CallerStep(s, a)
    case Receive(_) => CallerStep(s, a)
    case TakeReply(_) => ReaderStep(s, a)
    case Deliver(_) => ReaderStep(s, a)
    case Fail(_, _) => ReaderStep(s, a)
    case CloseOne(_, _) => ReaderStep(s, a)
    case Finish(_) => ReaderStep(s, a)
    case _ => ObserverStep(s, a)
  }

  /** A run: each action in turn, one that waits leaving the state alone.  The run stops at a crash. */
  function Run(actions: seq<Action>): Op<Mux> {
    if actions == [] then Does(STARTED)
    else
      match Run(actions[..|actions| - 1])
      case Does(s) =>
        var next := Next(s, actions[|actions| - 1]);
        if next.Blocks? then Does(s) else next
      case Panics => Panics
      case Blocks => Blocks
  }

  // ---------------------------------------------------------------- invariants

  /** The one place a request channel is in. */
  datatype Place = Nowhere | Table | Hand(reader: nat) | Grave(reader: nat) | Replied | Shut

  predicate Registered(phase: Phase) {
    !phase.Numbered? && !phase.Refused?
  }

  /** A table of calls by identifier. */
  predicate Indexed(table: map<int, nat>, n: nat) {
    forall id :: id in table ==> 1 <= id <= n && table[id] == id - 1
  }

  ghost predicate CallAt(call: Call, place: Place) {
    && (call.channel.sent != [] <==> place == Replied)
    && (call.channel.closed <==> place == Shut)
    && (Registered(call.phase) <==> place != Nowhere)
    && (call.channel.sent != [] ==> |call.channel.sent| == 1 && call.channel.sent[0].id == Some(call.id))
    && call.channel.taken == (if call.phase.Answered? then 1 else 0)
    && (call.phase.Answered? ==> call.channel.sent == [call.phase.reply])
    && (call.phase.Woken? ==> call.channel.closed)
  }

  ghost predicate ReaderAt(reader: Reader, r: nat, where: seq<Place>) {
    && (forall c :: 0 <= c < |where| && where[c] == Hand(r) ==> reader.InHand? && reader.call == c)
    && (reader.InHand? ==>
          reader.call < |where| && where[reader.call] == Hand(r) && reader.line.id == Some(reader.call + 1))
    && (reader.Draining? ==> Indexed(reader.left, |where|))
    && (forall c :: 0 <= c < |where| ==> (where[c] == Grave(r) <==> reader.Draining? && c + 1 in reader.left))
  }

  ghost predicate TableAt(pending: map<int, nat>, where: seq<Place>) {
    && Indexed(pending, |where|)
    && forall c :: 0 <= c < |where| ==> (where[c] == Table <==> c + 1 in pending)
  }

  ghost predicate Placed(s: Mux, where: seq<Place>) {
    && s.nextID == |s.calls| == |where|
    && (forall c :: 0 <= c < |where| ==> s.calls[c].id == c + 1 && CallAt(s.calls[c], where[c]))
    && TableAt(s.pending, where)
    && (forall r :: 0 <= r < |s.readers| ==> ReaderAt(s.readers[r], r, where))
    && (forall c :: 0 <= c < |where| ==> (where[c].Hand? || where[c].Grave?) ==> where[c].reader < |s.readers|)
    && s.cmd + 1 == |s.readers|
    && (s.readers[s.cmd].Draining? || s.readers[s.cmd].Done? ==> s.dead.Some? && s.pending == map[])
  }

  /** An observer has been shown the lines from its subscription on, all of them while it is subscribed. */
  ghost predicate Sees(s: Mux, i: nat)
    requires i < |s.streams|
  {
    var stream, ch := s.streams[i], s.streams[i].channel;
    && stream.start + |ch.sent| <= |s.lines|
    && ch.sent == s.lines[stream.start..stream.start + |ch.sent|]
    && ch.taken <= |ch.sent| <= ch.taken + EVENT_BUFFER
    && (ch.closed <==> i !in s.subscribers)
    && (i in s.subscribers ==> stream.start + |ch.sent| == |s.lines| && !stream.cancelled)
    && (ch.closed && !stream.cancelled ==> |ch.sent| >= EVENT_BUFFER)
  }

  ghost predicate Observed(s: Mux) {
    && (forall i :: i in s.subscribers ==> i < |s.streams|)
    && (forall i :: 0 <= i < |s.streams| ==> Sees(s, i))
  }

  // ---------------------------------------------------------------- every step keeps them

  /** What a step from a state must achieve: it does not crash, and the invariant still holds. */
  ghost predicate Keeps(s: Mux, next: Op<Mux>) {
    && !next.Panics?
    && (next.Does? ==> exists where :: Placed(next.value, where))
  }

  lemma NumberKeeps(s: Mux, where: seq<Place>)
    requires Placed(s, where)
    ensures Keeps(s, CallerStep(s, Number))
  {
    var t := CallerStep(s, Number).value;
    assert Placed(t, where + [Nowhere]);
  }

  lemma RegisterKeeps(s: Mux, where: seq<Place>, c: nat)
    requires Placed(s, where)
    ensures Keeps(s, CallerStep(s, Register(c)))
  {
    var next := CallerStep(s, Register(c));
    if next.Does? {
      assert CallAt(s.calls[c], where[c]);
      if s.dead.Some? {
        RefusedPlaced(s, where, c);
      } else {
        RegisteredPlaced(s, where, c);
      }
    }
  }

  lemma RefusedPlaced(s: Mux, where: seq<Place>, c: nat)
    requires Placed(s, where) && c < |s.calls| && s.calls[c].phase.Numbered?
    ensures Placed(Enter(s, c, Refused), where)
  {
    var t := Enter(s, c, Refused);
    hide ReaderAt, TableAt;
    assert CallAt(s.calls[c], where[c]);
    assert CallAt(t.calls[c], where[c]);
    hide CallAt;
    forall d | 0 <= d < |where| ensures CallAt(t.calls[d], where[d]) {
      assert CallAt(s.calls[d], where[d]);
    }
  }

  lemma RegisteredPlaced(s: Mux, where: seq<Place>, c: nat)
    requires Placed(s, where) && c < |s.calls| && s.calls[c].phase.Numbered? && s.dead.None?
    ensures Placed(Enter(s, c, Writing).(pending := s.pending[s.calls[c].id := c]), where[c := Table])
  {
    var t := Enter(s, c, Writing).(pending := s.pending[s.calls[c].id := c]);
    var after := where[c := Table];
    assert CallAt(s.calls[c], where[c]);
    assert CallAt(t.calls[c], Table) && where[c] == Nowhere;
    forall d | 0 <= d < |after| ensures CallAt(t.calls[d], after[d]) {
      hide CallAt;
      assert CallAt(s.calls[d], where[d]);
    }
    hide CallAt;
    assert TableAt(t.pending, after);
    hide TableAt;
    forall r | 0 <= r < |t.readers| ensures ReaderAt(t.readers[r], r, after) {
      assert ReaderAt(s.readers[r], r, where);
    }
    hide ReaderAt;
  }

  /** A caller's own steps move no channel. */
  lemma CallerKeeps(s: Mux, where: seq<Place>, a: Action)
    requires Placed(s, where)
    requires a.Wrote? || a.WriteFails? || a.Cancel? || a.Receive?
    ensures Keeps(s, CallerStep(s, a))
  {
    var next := CallerStep(s, a);
    if next.Does? {
      var t := next.value;
      hide ReaderAt, TableAt;
      assert CallAt(s.calls[a.call], where[a.call]);
      assert CallAt(t.calls[a.call], where[a.call]);
      forall d | 0 <= d < |where| ensures CallAt(t.calls[d], where[d]) {
        hide CallAt;
        assert CallAt(s.calls[d], where[d]);
      }
      hide CallAt;
      assert Placed(t, where);
    }
  }

  lemma TakeReplyKeeps(s: Mux, where: seq<Place>, r: nat)
    requires Placed(s, where)
    ensures Keeps(s, ReaderStep(s, TakeReply(r)))
  {
    var next := ReaderStep(s, TakeReply(r));
    if next.Does? {
      var line := s.readers[r].line;
      if line.id.Some? && line.id.value in s.pending {
        TakenReplyPlaced(s, where, r);
      } else {
        assert Placed(next.value, where);
      }
    }
  }

  /** A reader moves one call from one place to another. */
  lemma MovedOne(s: Mux, t: Mux, where: seq<Place>, c: nat, r: nat, place: Place)
    requires Placed(s, where) && c < |s.calls| && r < |s.readers|
    requires |t.calls| == |s.calls| && |t.readers| == |s.readers|
    requires t.nextID == s.nextID && t.cmd == s.cmd
    requires t.calls == s.calls[c := t.calls[c]] && t.calls[c].id == s.calls[c].id && CallAt(t.calls[c], place)
    requires t.readers == s.readers[r := t.readers[r]] && ReaderAt(t.readers[r], r, where[c := place])
    requires where[c].Hand? || where[c].Grave? ==> where[c].reader == r
    requires place.Hand? || place.Grave? ==> place.reader == r
    requires TableAt(t.pending, where[c := place])
    requires t.readers[s.cmd].Draining? || t.readers[s.cmd].Done? ==> t.dead.Some? && t.pending == map[]
    ensures Placed(t, where[c := place])
  {
    var after := where[c := place];
    forall d | 0 <= d < |after| ensures t.calls[d].id == d + 1 && CallAt(t.calls[d], after[d]) {
      hide CallAt;
      assert CallAt(s.calls[d], where[d]);
    }
    forall q | 0 <= q < |t.readers| ensures ReaderAt(t.readers[q], q, after) {
      assert ReaderAt(s.readers[q], q, where);
    }
    hide CallAt, ReaderAt, TableAt;
  }

  lemma TakenReplyPlaced(s: Mux, where: seq<Place>, r: nat)
    requires Placed(s, where)
    requires r < |s.readers| && s.readers[r].Parsed?
    requires s.readers[r].line.id.Some? && s.readers[r].line.id.value in s.pending
    ensures ReaderStep(s, TakeReply(r)).Does?
    ensures exists w :: Placed(ReaderStep(s, TakeReply(r)).value, w)
  {
    var t := ReaderStep(s, TakeReply(r)).value;
    var id := s.readers[r].line.id.value;
    var c := s.pending[id];
    assert c == id - 1 && c < |where|;
    assert ReaderAt(s.readers[r], r, where) && where[c] == Table;
    TableToHand(s, where, c, r);
    hide TableAt, CallAt;
    assert ReaderAt(t.readers[r], r, where[c := Hand(r)]);
    hide ReaderAt;
    MovedOne(s, t, where, c, r, Hand(r));
  }

  lemma TableToHand(s: Mux, where: seq<Place>, c: nat, r: nat)
    requires Placed(s, where) && c < |where| && where[c] == Table
    ensures TableAt(s.pending - {c + 1}, where[c := Hand(r)]) && CallAt(s.calls[c], Hand(r))
  {
    hide ReaderAt;
    assert CallAt(s.calls[c], where[c]);
  }

  /** A call that is in a reader's hands is not in the table. */
  lemma TableStays(pending: map<int, nat>, where: seq<Place>, c: nat, place: Place)
    requires TableAt(pending, where) && c < |where| && where[c] != Table && place != Table
    ensures TableAt(pending, where[c := place])
  {
  }

  lemma DeliverKeeps(s: Mux, where: seq<Place>, r: nat)
    requires Placed(s, where)
    ensures Keeps(s, ReaderStep(s, Deliver(r)))
    ensures r < |s.readers| && s.readers[r].InHand? ==> ReaderStep(s, Deliver(r)).Does?
  {
    if r < |s.readers| && s.readers[r].InHand? {
      var c := s.readers[r].call;
      assert ReaderAt(s.readers[r], r, where) && CallAt(s.calls[c], where[c]);
      var t := ReaderStep(s, Deliver(r)).value;
      TableStays(s.pending, where, c, Replied);
      assert CallAt(t.calls[c], Replied) && ReaderAt(t.readers[r], r, where[c := Replied]);
      hide CallAt, ReaderAt, TableAt;
      MovedOne(s, t, where, c, r, Replied);
    }
  }

  lemma FailKeeps(s: Mux, where: seq<Place>, r: nat, reason: string)
    requires Placed(s, where)
    ensures Keeps(s, ReaderStep(s, Fail(r, reason)))
  {
    var next := ReaderStep(s, Fail(r, reason));
    if next.Does? {
      if s.cmd == r {
        var after := seq(|where|, c requires 0 <= c < |where| => if where[c] == Table then Grave(r) else where[c]);
        GravesTaken(s, where, r, after);
        hide CallAt, ReaderAt, TableAt;
        assert Placed(next.value, after);
      } else {
        assert Placed(next.value, where);
      }
    }
  }

  /** The reader of a dead subprocess takes the whole table. */
  lemma GravesTaken(s: Mux, where: seq<Place>, r: nat, after: seq<Place>)
    requires Placed(s, where) && r < |s.readers| && s.readers[r].Reading? && |after| == |where|
    requires forall c :: 0 <= c < |where| ==> after[c] == if where[c] == Table then Grave(r) else where[c]
    ensures TableAt(map[], after)
    ensures forall c :: 0 <= c < |after| ==> CallAt(s.calls[c], after[c])
    ensures forall q :: 0 <= q < |s.readers| ==>
              ReaderAt(if q == r then Draining(s.pending) else s.readers[q], q, after)
  {
    assert ReaderAt(s.readers[r], r, where);
    forall c | 0 <= c < |after| ensures CallAt(s.calls[c], after[c]) {
      hide ReaderAt, TableAt;
      assert CallAt(s.calls[c], where[c]);
    }
    forall q | 0 <= q < |s.readers| ensures ReaderAt(if q == r then Draining(s.pending) else s.readers[q], q, after) {
      hide CallAt;
      assert ReaderAt(s.readers[q], q, where);
    }
  }

  lemma ClosedOne(s: Mux, where: seq<Place>, r: nat, id: int)
    requires r < |s.readers| && s.readers[r].Draining? && ReaderAt(s.readers[r], r, where) && id in s.readers[r].left
    requires |s.calls| == |where| && CallAt(s.calls[id - 1], Grave(r))
    ensures var t := ReaderStep(s, CloseOne(r, id));
            && t.Does? && CallAt(t.value.calls[id - 1], Shut)
            && ReaderAt(t.value.readers[r], r, where[id - 1 := Shut])
  {
  }

  lemma CloseOneKeeps(s: Mux, where: seq<Place>, r: nat, id: int)
    requires Placed(s, where)
    ensures Keeps(s, ReaderStep(s, CloseOne(r, id)))
    ensures r < |s.readers| && s.readers[r].Draining? && id in s.readers[r].left ==>
              ReaderStep(s, CloseOne(r, id)).Does?
  {
    if r < |s.readers| && s.readers[r].Draining? && id in s.readers[r].left {
      var c := s.readers[r].left[id];
      assert ReaderAt(s.readers[r], r, where);
      assert c == id - 1 && where[c] == Grave(r) && CallAt(s.calls[c], where[c]);
      var t := ReaderStep(s, CloseOne(r, id)).value;
      TableStays(s.pending, where, c, Shut);
      ClosedOne(s, where, r, id);
      hide CallAt, ReaderAt, TableAt;
      MovedOne(s, t, where, c, r, Shut);
    }
  }

  lemma FinishKeeps(s: Mux, where: seq<Place>, r: nat)
    requires Placed(s, where)
    ensures Keeps(s, ReaderStep(s, Finish(r)))
  {
    var next := ReaderStep(s, Finish(r));
    if next.Does? {
      assert Placed(next.value, where);
    }
  }

  lemma StartKeeps(s: Mux, where: seq<Place>)
    requires Placed(s, where)
    ensures Keeps(s, Next(s, Start))
  {
    assert Placed(Next(s, Start).value, where);
  }

  lemma InvalidateKeeps(s: Mux, where: seq<Place>, reason: string)
    requires Placed(s, where)
    ensures Keeps(s, Next(s, Invalidate(reason)))
  {
    assert Placed(Next(s, Invalidate(reason)).value, where);
  }

  // ---------------------------------------------------------------- observers

  lemma BroadcastObserved(s: Mux, r: nat, line: Line)
    requires Observed(s)
    ensures var next := ObserverStep(s, Broadcast(r, line));
            !next.Panics? && (next.Does? ==> Observed(next.value))
  {
    var next := ObserverStep(s, Broadcast(r, line));
    assert forall i :: i in s.subscribers ==> Sees(s, i);
    if next.Does? {
      forall i | 0 <= i < |s.streams| ensures Sees(next.value, i) {
        assert Sees(s, i);
      }
    }
  }

  lemma SubscribeObserved(s: Mux)
    requires Observed(s)
    ensures var next := ObserverStep(s, Subscribe);
            !next.Panics? && (next.Does? ==> Observed(next.value))
  {
    var next := ObserverStep(s, Subscribe);
    if next.Does? {
      forall j | 0 <= j < |next.value.streams| ensures Sees(next.value, j) {
        assert j < |s.streams| ==> Sees(s, j);
      }
    }
  }

  lemma UnsubscribeObserved(s: Mux, i: nat)
    requires Observed(s)
    ensures var next := ObserverStep(s, Unsubscribe(i));
            !next.Panics? && (next.Does? ==> Observed(next.value))
  {
    var next := ObserverStep(s, Unsubscribe(i));
    if i < |s.streams| {
      assert Sees(s, i);
    }
    if next.Does? {
      forall j | 0 <= j < |next.value.streams| ensures Sees(next.value, j) {
        assert j < |s.streams| ==> Sees(s, j);
      }
    }
  }

  lemma ReadObserved(s: Mux, i: nat)
    requires Observed(s)
    ensures var next := ObserverStep(s, Read(i));
            !next.Panics? && (next.Does? ==> Observed(next.value))
  {
    var next := ObserverStep(s, Read(i));
    if next.Does? {
      forall j | 0 <= j < |next.value.streams| ensures Sees(next.value, j) {
        assert j < |s.streams| ==> Sees(s, j);
      }
    }
  }

  /** Showing a line and what observers do leave the calls and the table alone. */
  lemma ObserverKeeps(s: Mux, where: seq<Place>, a: Action)
    requires Placed(s, where)
    ensures var next := ObserverStep(s, a);
            next.Does? ==> Placed(next.value, where)
  {
    hide ShownTo, KeepingUp, Receiving, CallAt, TableAt;
  }

  // ---------------------------------------------------------------- all runs

  ghost predicate Inv(s: Mux) {
    Observed(s) && exists where :: Placed(s, where)
  }

  lemma CallerLeavesObservers(s: Mux, a: Action)
    requires Observed(s) && CallerStep(s, a).Does?
    ensures Observed(CallerStep(s, a).value)
  {
    hide Receiving;
    SameObservers(s, CallerStep(s, a).value);
  }

  lemma ReaderLeavesObservers(s: Mux, a: Action)
    requires Observed(s) && ReaderStep(s, a).Does?
    ensures Observed(ReaderStep(s, a).value)
  {
    hide Sending, Closing;
    SameObservers(s, ReaderStep(s, a).value);
  }

  lemma SameObservers(s: Mux, t: Mux)
    requires Observed(s) && t.streams == s.streams && t.subscribers == s.subscribers && t.lines == s.lines
    ensures Observed(t)
  {
    forall i | 0 <= i < |t.streams| ensures Sees(t, i) {
      assert Sees(s, i);
    }
  }

  /** Every step from a good state leads to a good state and none crashes. */
  lemma StepKeepsInv(s: Mux, a: Action)
    requires Inv(s)
    ensures !Next(s, a).Panics?
    ensures Next(s, a).Does? ==> Inv(Next(s, a).value)
  {
    hide CallerStep, ReaderStep, ObserverStep, Placed, Observed;
    var where :| Placed(s, where);
    StepKeepsCalls(s, where, a);
    StepKeepsObservers(s, a);
  }

  lemma StepKeepsCalls(s: Mux, where: seq<Place>, a: Action)
    requires Placed(s, where)
    ensures Next(s, a).Does? ==> exists w :: Placed(Next(s, a).value, w)
    ensures a.Broadcast? || a.Subscribe? || a.Unsubscribe? || a.Read? || !Next(s, a).Panics?
  {
    hide CallerStep, ReaderStep, ObserverStep, Placed;
    match a
    case Start => StartKeeps(s, where);
    case Invalidate(reason) => InvalidateKeeps(s, where, reason);
    case Number => NumberKeeps(s, where);
    case Register(c) => RegisterKeeps(s, where, c);
    case Wrote(_) => CallerKeeps(s, where, a);
    case WriteFails(_, _) => CallerKeeps(s, where, a);
    case Cancel(_) => CallerKeeps(s, where, a);
    case Receive(_) => CallerKeeps(s, where, a);
    case TakeReply(r) => TakeReplyKeeps(s, where, r);
    case Deliver(r) => DeliverKeeps(s, where, r);
    case Fail(r, reason) => FailKeeps(s, where, r, reason);
    case CloseOne(r, id) => CloseOneKeeps(s, where, r, id);
    case Finish(r) => FinishKeeps(s, where, r);
    case _ => ObserverKeeps(s, where, a);
  }

  lemma StepKeepsObservers(s: Mux, a: Action)
    requires Observed(s)
    ensures Next(s, a).Does? ==> Observed(Next(s, a).value)
    ensures a.Broadcast? || a.Subscribe? || a.Unsubscribe? || a.Read? ==> !Next(s, a).Panics?
  {
    hide CallerStep, ReaderStep, ObserverStep, Observed;
    match a
    case Start => SameObservers(s, Next(s, a).value);
    case Invalidate(reason) => SameObservers(s, Next(s, a).value);
    case Broadcast(r, line) => BroadcastObserved(s, r, line);
    case Subscribe => SubscribeObserved(s);
    case Unsubscribe(i) => UnsubscribeObserved(s, i);
    case Read(i) => ReadObserved(s, i);
    case _ =>
      if CallerStep(s, a).Does? {
        CallerLeavesObservers(s, a);
      }
      if ReaderStep(s, a).Does? {
        ReaderLeavesObservers(s, a);
      }
  }

  /** No run crashes: no channel is closed twice or sent to after it is closed, in any interleaving. */
  lemma {:induction false} RunNeverPanics(actions: seq<Action>)
    ensures Run(actions).Does? && Inv(Run(actions).value)
  {
    if actions == [] {
      assert Placed(STARTED, []);
    } else {
      RunNeverPanics(actions[..|actions| - 1]);
      StepKeepsInv(Run(actions[..|actions| - 1]).value, actions[|actions| - 1]);
    }
  }

  /** What became of a request channel. */
  predicate Resolved(call: Call) {
    call.channel.sent != [] || call.channel.closed
  }

  /** In every interleaving each request channel gets at most one reply or one close, never both; a
      reply carries the call's own number; and what a caller returns is that reply, or that close. */
  lemma EachCallIsResolvedOnce(actions: seq<Action>, s: Mux, c: nat)
    requires Run(actions) == Does(s) && c < |s.calls|
    ensures var call := s.calls[c];
            var ch := call.channel;
            && |ch.sent| + (if ch.closed then 1 else 0) <= 1
            && (forall line :: line in ch.sent ==> line.id == Some(call.id))
            && (call.phase.Answered? ==> ch.sent == [call.phase.reply])
            && (call.phase.Woken? ==> ch.closed)
            && (Resolved(call) ==> Registered(call.phase))
  {
    RunNeverPanics(actions);
    hide Run, Observed;
    CallInPlace(s, c);
  }

  lemma CallInPlace(s: Mux, c: nat)
    requires Inv(s) && c < |s.calls|
    ensures exists place :: CallAt(s.calls[c], place)
  {
    hide CallAt, ReaderAt, TableAt;
    var where :| Placed(s, where);
    assert CallAt(s.calls[c], where[c]);
  }

  /** Numbers are never shared. */
  lemma NumbersAreUnique(actions: seq<Action>, s: Mux, c: nat, d: nat)
    requires Run(actions) == Does(s) && c < d < |s.calls|
    ensures s.calls[c].id != s.calls[d].id
  {
    RunNeverPanics(actions);
  }

  /** A resolution is final: no step takes a reply or a close back, or changes a call's number. */
  lemma ResolutionIsFinal(s: Mux, a: Action, c: nat)
    requires Inv(s) && c < |s.calls| && Next(s, a).Does?
    ensures var t := Next(s, a).value;
            && c < |t.calls| && t.calls[c].id == s.calls[c].id
            && (Resolved(s.calls[c]) ==>
                  && t.calls[c].channel.sent == s.calls[c].channel.sent
                  && t.calls[c].channel.closed == s.calls[c].channel.closed)
  {
    hide Placed, Observed, ShownTo, KeepingUp;
    if a.Deliver? || a.CloseOne? {
      HeldCallIsUnresolved(s, a.reader);
    }
  }

  /** What a reader holds is not resolved yet. */
  lemma HeldCallIsUnresolved(s: Mux, r: nat)
    requires Inv(s)
    ensures r < |s.readers| && s.readers[r].InHand? ==>
              s.readers[r].call < |s.calls| && s.calls[s.readers[r].call].channel == FRESH
    ensures r < |s.readers| && s.readers[r].Draining? ==>
              forall id :: id in s.readers[r].left ==>
                s.readers[r].left[id] < |s.calls| && s.calls[s.readers[r].left[id]].channel == FRESH
  {
    if r < |s.readers| {
      var where :| Placed(s, where);
      assert ReaderAt(s.readers[r], r, where);
      if s.readers[r].InHand? {
        assert CallAt(s.calls[s.readers[r].call], where[s.readers[r].call]);
      }
      if s.readers[r].Draining? {
        forall id | id in s.readers[r].left
          ensures s.readers[r].left[id] < |s.calls| && s.calls[s.readers[r].left[id]].channel == FRESH
        {
          assert CallAt(s.calls[id - 1], where[id - 1]);
        }
      }
    }
  }

  /** A registered call whose reply or close is on its way: an earlier reader holds its channel, and its
      very next step on it hands over without waiting for anybody. */
  ghost predicate OnItsWay(s: Mux, c: nat) {
    exists r: nat :: r < s.cmd && r < |s.readers| && c < |s.calls|
      && ((s.readers[r].InHand? && s.readers[r].call == c
           && Next(s, Deliver(r)).Does? && Resolved(Next(s, Deliver(r)).value.calls[c]))
          || (s.readers[r].Draining? && c + 1 in s.readers[r].left
              && Next(s, CloseOne(r, c + 1)).Does? && Resolved(Next(s, CloseOne(r, c + 1)).value.calls[c])))
  }

  /** The death of a subprocess that was not replaced wakes every unanswered call: once its reader is
      done, each registered call has its reply or its close, or is in the hands of an earlier reader. */
  lemma DeathWakesEveryCall(actions: seq<Action>, s: Mux, c: nat)
    requires Run(actions) == Does(s) && s.cmd < |s.readers| && s.readers[s.cmd].Done?
    requires c < |s.calls| && Registered(s.calls[c].phase)
    ensures Resolved(s.calls[c]) || OnItsWay(s, c)
    ensures Resolved(s.calls[c]) && s.calls[c].phase.Waiting? ==> Next(s, Receive(c)).Does?
    ensures s.pending == map[] && s.dead.Some?
  {
    RunNeverPanics(actions);
    hide Run, Observed;
    var where: seq<Place> :| Placed(s, where);
    assert CallAt(s.calls[c], where[c]);
    if where[c].Hand? || where[c].Grave? {
      HeldIsOnItsWay(s, where, c);
    }
  }

  lemma HeldIsOnItsWay(s: Mux, where: seq<Place>, c: nat)
    requires Placed(s, where) && c < |where| && s.readers[s.cmd].Done?
    requires where[c].Hand? || where[c].Grave?
    ensures OnItsWay(s, c)
  {
    var r := where[c].reader;
    assert ReaderAt(s.readers[r], r, where);
    assert r != s.cmd;
    if where[c].Hand? {
      DeliverKeeps(s, where, r);
    } else {
      CloseOneKeeps(s, where, r, c + 1);
    }
    hide Placed;
  }

  /** Going on from a state. */
  function Continued(s: Mux, actions: seq<Action>): Op<Mux>
    decreases |actions|
  {
    if actions == [] then Does(s)
    else
      match Next(s, actions[0])
      case Does(t) => Continued(t, actions[1..])
      case Panics => Panics
      case Blocks => Continued(s, actions[1..])
  }

  /** From a failed write or an invalidation on, until the process is started again, every call that registers
      is refused, and no such registration touches the table. */
  lemma InvalidProcessRefuses(s: Mux, fatal: Action, t: Mux, actions: seq<Action>, u: Mux, c: nat, v: Mux)
    requires fatal.WriteFails? || fatal.Invalidate?
    requires Next(s, fatal) == Does(t) && Continued(t, actions) == Does(u) && Action.Start !in actions
    requires Next(u, Register(c)) == Does(v)
    ensures v.calls[c].phase == Refused && v.pending == u.pending && v.dead.Some?
  {
    DeadStaysDead(t, actions, u);
  }

  lemma {:induction false} DeadStaysDead(s: Mux, actions: seq<Action>, t: Mux)
    requires s.dead.Some? && Continued(s, actions) == Does(t) && Action.Start !in actions
    ensures t.dead.Some?
    decreases |actions|
  {
    if actions != [] {
      OnlyStartRevives(s, actions[0]);
      hide Next;
      if Next(s, actions[0]).Does? {
        DeadStaysDead(Next(s, actions[0]).value, actions[1..], t);
      } else {
        DeadStaysDead(s, actions[1..], t);
      }
    }
  }

  lemma OnlyStartRevives(s: Mux, a: Action)
    requires s.dead.Some? && !a.Start?
    ensures Next(s, a).Does? ==> Next(s, a).value.dead.Some?
  {
    hide ShownTo, KeepingUp;
  }

  /** A call that registers while the process is alive is entered under its own number. */
  lemma LiveProcessAccepts(s: Mux, c: nat)
    requires s.dead.None? && c < |s.calls| && s.calls[c].phase == Numbered
    ensures var next := Next(s, Register(c));
            && next.Does? && next.value.pending == s.pending[s.calls[c].id := c]
            && next.value.calls[c].phase == Writing && next.value.dead.None?
  {
  }

  /** Every observer sees an unbroken run of the lines, in order, from its subscription on; while it is
      subscribed it has been sent every line; and it is cut off only by itself or with a full buffer. */
  lemma ObserversSeeContiguousLines(actions: seq<Action>, s: Mux, i: nat)
    requires Run(actions) == Does(s) && i < |s.streams|
    ensures var stream, ch := s.streams[i], s.streams[i].channel;
            && stream.start + |ch.sent| <= |s.lines| && ch.taken <= |ch.sent|
            && ch.sent[..ch.taken] == s.lines[stream.start..stream.start + ch.taken]
            && (i in s.subscribers ==> ch.sent == s.lines[stream.start..] && !ch.closed)
            && (i !in s.subscribers ==> ch.closed && (stream.cancelled || |ch.sent| >= EVENT_BUFFER))
            && |ch.sent| <= ch.taken + EVENT_BUFFER
  {
    RunNeverPanics(actions);
    assert Sees(s, i);
  }

  /** Showing a line to a subscriber whose channel is closed would crash the program. */
  lemma ShowingToClosedPanics(s: Mux, r: nat, line: Line, i: nat)
    requires r < |s.readers| && s.readers[r].Reading?
    requires i in s.subscribers && i < |s.streams| && s.streams[i].channel.closed
    ensures Next(s, Broadcast(r, line)) == Panics
  {
  }
}
