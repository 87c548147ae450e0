/** The authoritative event log: one project row, its events and its projection rows, changed only by
    `Mutate` under the project's row lock. */
module Authority {
  import opened Results
  import opened Contracts
  import opened Projection
  import opened Numerals
  import opened Paging

  /** What the engine asks of code and keys outside this model, as deterministic functions. */
  datatype Rules = Rules(
    apply: Projector,
    // Payload decoding, and the choice and check of the actor's public key.
    decodes: Command -> bool,
    signingKey: (State, Command) -> Result<string>,
    verifies: (Command, string) -> bool,
    fingerprint: string -> string,
    // Transition validation at a head sequence, for an owner and a time; yields the normalised payload.
    admit: (State, nat, string, Command, nat) -> Result<string>,
    // How the JSONB column respells a JSON value.
    respell: string -> string)

  datatype Project = Project(
    owner: string, headSequence: nat, headHash: Hash, events: seq<Record>, rows: Rows, outbox: seq<Event>)

  /** How the storage transaction ends.  A commit can land although its reply is lost. */
  datatype Fate = Commits | RollsBack | CommitsUnreported

  /** What one accepted command adds: the event with its receipt, and the state after it. */
  datatype Plan = Plan(record: Record, after: State)

  function Truncate(t: nat): nat {
    t - t % MICROSECOND
  }

  function EventId(sequence: nat): string {
    "evt-" + Padded(sequence, 20)
  }

  /** Columns keep microseconds and JSON values, not nanoseconds and spellings. */
  function Stored(rules: Rules, r: Record): Record {
    var e := r.event;
    r.(event := e.(time := Truncate(e.time),
                   payload := if e.payload.Json? then Json(e.payload.value, rules.respell(e.payload.value))
                              else e.payload))
  }

  function FindKey(events: seq<Record>, key: string): Option<Record> {
    if events == [] then None
    else if events[0].event.idempotencyKey == key then Some(events[0])
    else FindKey(events[1..], key)
  }

  /** The event a command becomes at the head of `p`. */
  function NewRecord(rules: Rules, serviceKey: string, p: Project, c: Command, intent: Hash, now: nat,
                     publicKey: string, payload: string): Record
  {
    var bare := Event(c.projectId, p.headSequence + 1, EventId(p.headSequence + 1), now, c.actor,
                      rules.fingerprint(publicKey), c.kind, c.entityId, Json(payload, payload),
                      p.headHash, Genesis, intent, c.idempotencyKey);
    var e := bare.(hash := HashEvent(bare).value);
    Record(e, SignReceipt(serviceKey, ReceiptContent(c.projectId, e.sequence, e.id, e.hash, intent, now,
                                                     rules.fingerprint(serviceKey))))
  }

  /** The verdict on a command whose idempotency key is new. */
  function Decide(rules: Rules, serviceKey: string, p: Project, c: Command, intent: Hash, now: nat): Result<Plan> {
    var before := Load(p.rows);
    if !WellFormed(c, now) || !rules.decodes(c) then Err(Validation)
    else
      match rules.signingKey(before, c)
      case Err(code) => Err(code)
      case Ok(publicKey) =>
        if !rules.verifies(c, publicKey) then Err(Integrity)
        else if c.expectedSequence != 0 && c.expectedSequence != p.headSequence then Err(StalePrecondition)
        else
          match rules.admit(before, p.headSequence, p.owner, c, now)
          case Err(code) => Err(code)
          case Ok(payload) =>
            var r := NewRecord(rules, serviceKey, p, c, intent, now, publicKey, payload);
            match ApplyEvent(rules.apply, before, r.event)
            case None => Err(Unavailable)
            case Some(after) => Ok(Plan(r, after))
  }

  /** `q` is `p` with the planned event committed. */
  ghost predicate Committed(rules: Rules, p: Project, q: Project, plan: Plan) {
    && q.owner == p.owner
    && q.headSequence == p.headSequence + 1
    && q.headHash == plan.record.event.hash
    && q.events == p.events + [Stored(rules, plan.record)]
    && q.outbox == p.outbox + [plan.record.event]
    && (Load(q.rows) == plan.after <==> Persistable(Load(p.rows), plan.after))
    && Load(q.rows).settings == plan.after.settings
    && (Addressed(Load(p.rows), plan.after) ==>
          Load(q.rows).entities == WithLeftovers(Load(p.rows).entities, plan.after.entities))
  }

  datatype Call = Call(command: Command, clock: nat, fate: Fate)

  /** One call of `Mutate` on an existing project, as a transition with its reply. */
  ghost predicate MutateStep(rules: Rules, serviceKey: string, p: Project, q: Project, call: Call,
                             reply: Result<Record>) {
    var c := call.command;
    match IntentHash(c)
    case None => q == p && reply == Err(Validation)
    case Some(intent) =>
      match FindKey(p.events, c.idempotencyKey)
      case Some(row) =>
        && q == p
        && reply == if row.event.intentHash != intent then Err(Conflict)
                    else if call.fate == Commits then Ok(row) else Err(Unavailable)
      case None =>
        match Decide(rules, serviceKey, p, c, intent, Truncate(call.clock))
        case Err(code) => q == p && reply == Err(code)
        case Ok(plan) =>
          && (if call.fate == RollsBack then q == p else Committed(rules, p, q, plan))
          && reply == if call.fate == Commits then Ok(plan.record) else Err(Unavailable)
  }

  class Engine {
    const rules: Rules
    const serviceKey: string
    var projects: map<string, Project>

    constructor (rules: Rules, serviceKey: string)
      ensures this.rules == rules && this.serviceKey == serviceKey && Valid() && projects == map[]
    {
      this.rules, this.serviceKey, projects := rules, serviceKey, map[];
    }

    ghost predicate Valid()
      reads this
    {
      forall id :: id in projects ==> ValidProject(id, serviceKey, projects[id])
    }

    function Table(projectId: string): seq<Record>
      reads this
    {
      if projectId in projects then projects[projectId].events else []
    }

    method CreateProject(projectId: string, ownerId: string) returns (r: Result<()>)
      requires Valid()
      modifies this
      ensures Valid()
      ensures r.Ok? <==> !Blank(projectId) && !Blank(ownerId)
      ensures projects == if r.Ok? && projectId !in old(projects)
                          then old(projects)[projectId := Project(ownerId, 0, Genesis, [], NO_ROWS, [])]
                          else old(projects)
    {
      if Blank(projectId) || Blank(ownerId) {
        return Err(Validation);
      }
      if projectId !in projects {
        projects := projects[projectId := Project(ownerId, 0, Genesis, [], NO_ROWS, [])];
      }
      return Ok(());
    }

    /** Append one event for a command, or replay the event its idempotency key already has.  The
        clock reads at least a microsecond past the zero time. */
    method Mutate(command: Command, clock: nat, fate: Fate) returns (reply: Result<Record>)
      requires Valid() && clock >= MICROSECOND
      modifies this
      ensures Valid()
      ensures command.projectId !in old(projects) ==> projects == old(projects) && reply == Err(Validation)
      ensures command.projectId in old(projects) ==>
                && projects.Keys == old(projects).Keys
                && projects == old(projects)[command.projectId := projects[command.projectId]]
                && MutateStep(rules, serviceKey, old(projects)[command.projectId], projects[command.projectId],
                              Call(command, clock, fate), reply)
    {
      hide WellFormed, IntentHash, FindKey, NewRecord, ApplyEvent, Load;
      hide Persistable, Addressed, WithLeftovers, ValidProject, Stored, Truncate, LastHash;
      if command.projectId !in projects {
        return Err(Validation);
      }
      var project := projects[command.projectId];
      var digest := IntentHash(command);
      if digest.None? {
        return Err(Validation);
      }
      var intentHash := digest.value;
      match FindKey(project.events, command.idempotencyKey) {
        case Some(row) =>
          if row.event.intentHash != intentHash {
            return Err(Conflict);
          }
          return if fate == Commits then Ok(row) else Err(Unavailable);
        case None =>
      }
      var now := Truncate(clock);
      TruncatedClock(clock);
      if !WellFormed(command, now) {
        return Err(Validation);
      }
      if !rules.decodes(command) {
        return Err(Validation);
      }
      var state := Load(project.rows);
      var publicKey := rules.signingKey(state, command);
      if publicKey.Err? {
        return Err(publicKey.code);
      }
      if !rules.verifies(command, publicKey.value) {
        return Err(Integrity);
      }
      if command.expectedSequence != 0 && command.expectedSequence != project.headSequence {
        return Err(StalePrecondition);
      }
      var payload := rules.admit(state, project.headSequence, project.owner, command, now);
      if payload.Err? {
        return Err(payload.code);
      }
      var record := NewRecord(rules, serviceKey, project, command, intentHash, now, publicKey.value, payload.value);
      RecordSequence(rules, serviceKey, project, command, intentHash, now, publicKey.value, payload.value);
      var next := ApplyEvent(rules.apply, state, record.event);
      if next.None? {
        return Err(Unavailable);
      }
      var tables := new Tables(project.rows);
      tables.PersistProjectionChanges(state, next.value);
      if fate != RollsBack {
        var committed := Project(project.owner, record.event.sequence, record.event.hash,
                                 project.events + [Stored(rules, record)], tables.Contents(),
                                 project.outbox + [record.event]);
        ghost var plan := Plan(record, next.value);
        assert Committed(rules, project, committed, plan);
        assert Decide(rules, serviceKey, project, command, intentHash, now) == Ok(plan);
        CommitKeepsLog(rules, serviceKey, project, committed, command, intentHash, now, plan);
        projects := projects[command.projectId := committed];
      }
      return if fate == Commits then Ok(record) else Err(Unavailable);
    }

    /** One page of a project's events after a cursor. */
    method Events(projectId: string, cursor: string, limit: int) returns (r: Result<Page>)
      ensures r == PageVerdict(if projectId in projects then projects[projectId].events else [], cursor, limit)
      ensures Valid() && cursor == "" && 0 <= limit <= 500 ==>
                var log, size := Table(projectId), if limit == 0 then 100 else limit;
                r.Ok? && r.value.items == if |log| > size then log[..size] else log
    {
      r := ReadPage(Table(projectId), cursor, limit);
      if Valid() && 0 <= limit <= 500 {
        FirstPage(Table(projectId), serviceKey, limit);
      }
    }

    method VerifyRange(projectId: string, from: nat, to: nat) returns (r: Result<()>)
      ensures r == RangeVerdict(if projectId in projects then projects[projectId].events else [], from, to, serviceKey)
    {
      r := Contracts.VerifyRange(Table(projectId), from, to, serviceKey);
    }
  }

  // ---------------------------------------------------------------- what every command keeps

  /** The log invariant: a signed chain from sequence 1 that ends at the head, receipts that name
      their events, idempotency keys used once, and an outbox that mirrors the log. */
  ghost predicate ValidProject(projectId: string, serviceKey: string, p: Project) {
    && p.headSequence == |p.events| == |p.outbox|
    && p.headHash == LastHash(p.events, Genesis)
    && ChainHolds(p.events, 1, Genesis, serviceKey)
    && RowsHold(projectId, p.events, p.outbox)
    && KeysUnique(p.events)
  }

  ghost predicate RowsHold(projectId: string, events: seq<Record>, outbox: seq<Event>)
    requires |events| == |outbox|
  {
    forall i :: 0 <= i < |events| ==> ValidRow(projectId, events[i]) && SameEvent(outbox[i], events[i].event)
  }

  predicate ValidRow(projectId: string, r: Record) {
    r.event.projectId == projectId && Matches(r.event, r.receipt) && r.event.id == EventId(r.event.sequence)
  }

  ghost predicate KeysUnique(events: seq<Record>) {
    forall i, j :: 0 <= i < j < |events| ==> events[i].event.idempotencyKey != events[j].event.idempotencyKey
  }

  lemma {:induction false} FoundKey(events: seq<Record>, key: string)
    ensures var r := FindKey(events, key);
            && (r.Some? ==> r.value in events && r.value.event.idempotencyKey == key)
            && (r.None? ==> forall i :: 0 <= i < |events| ==> events[i].event.idempotencyKey != key)
  {
    if events != [] && events[0].event.idempotencyKey != key {
      FoundKey(events[1..], key);
    }
  }

  /** The first row with a key stays the first when the log grows. */
  lemma {:induction false} FoundKeyStays(events: seq<Record>, more: seq<Record>, key: string)
    requires FindKey(events, key).Some?
    ensures FindKey(events + more, key) == FindKey(events, key)
  {
    if events[0].event.idempotencyKey != key {
      FoundKeyStays(events[1..], more, key);
      assert (events + more)[1..] == events[1..] + more;
    }
  }

  lemma {:induction false} AppendedKeyFound(events: seq<Record>, r: Record)
    requires FindKey(events, r.event.idempotencyKey).None?
    ensures FindKey(events + [r], r.event.idempotencyKey) == Some(r)
  {
    if events != [] {
      AppendedKeyFound(events[1..], r);
      assert (events + [r])[1..] == events[1..] + [r];
    }
  }

  lemma RecordSequence(rules: Rules, serviceKey: string, p: Project, c: Command, intent: Hash, now: nat,
                       publicKey: string, payload: string)
    ensures NewRecord(rules, serviceKey, p, c, intent, now, publicKey, payload).event.sequence == p.headSequence + 1
  {
  }

  lemma TruncatedClock(clock: nat)
    requires clock >= MICROSECOND
    ensures Truncate(Truncate(clock)) == Truncate(clock) > 0
  {
  }

  /** Storage rounding and respelling change neither the hash of a truncated event nor its content. */
  lemma StorageKeepsEvent(rules: Rules, r: Record)
    requires r.event.time == Truncate(r.event.time)
    ensures SameEvent(Stored(rules, r).event, r.event)
    ensures VerifyEventHash(Stored(rules, r).event) <==> VerifyEventHash(r.event)
    ensures Stored(rules, r).receipt == r.receipt
    ensures r.event.payload.Json? ==>
              Stored(rules, r).event.payload.Json?
              && Stored(rules, r).event.payload.text == rules.respell(r.event.payload.value)
  {
  }

  /** Why the clock is truncated first: storing an event with a finer time breaks its hash. */
  lemma UntruncatedTimeBreaksHash(rules: Rules, r: Record)
    requires VerifyEventHash(r.event)
    ensures VerifyEventHash(Stored(rules, r).event) <==> r.event.time == Truncate(r.event.time)
  {
  }

  lemma NewRecordHolds(rules: Rules, serviceKey: string, p: Project, c: Command, intent: Hash, now: nat, plan: Plan)
    requires Decide(rules, serviceKey, p, c, intent, now) == Ok(plan)
    requires IntentHash(c) == Some(intent) && now == Truncate(now) && now > 0
    ensures var r := Stored(rules, plan.record);
            && RowHolds(r, p.headSequence + 1, p.headHash, serviceKey)
            && ValidRow(c.projectId, r)
            && r.event.idempotencyKey == c.idempotencyKey
            && r.event.intentHash == intent
            && r.event.hash == plan.record.event.hash
            && SameEvent(plan.record.event, r.event)
  {
    StorageKeepsEvent(rules, plan.record);
  }

  /** A commit keeps the log invariant. */
  lemma CommitKeepsLog(rules: Rules, serviceKey: string, p: Project, q: Project, c: Command, intent: Hash, now: nat,
                       plan: Plan)
    requires ValidProject(c.projectId, serviceKey, p)
    requires Decide(rules, serviceKey, p, c, intent, now) == Ok(plan)
    requires IntentHash(c) == Some(intent) && now == Truncate(now) && now > 0
    requires FindKey(p.events, c.idempotencyKey).None?
    requires Committed(rules, p, q, plan)
    ensures ValidProject(c.projectId, serviceKey, q)
  {
    hide Decide, Stored, Persistable, IntentHash, FindKey, ChainHolds, Load, RowHolds, ValidRow, SameEvent, KeysUnique;
    hide RowsHold, Truncate;
    var r := Stored(rules, plan.record);
    NewRecordHolds(rules, serviceKey, p, c, intent, now, plan);
    FoundKey(p.events, c.idempotencyKey);
    ChainSnoc(p.events, r, serviceKey);
    KeysSnoc(p.events, r);
    RowsSnoc(c.projectId, p, r, plan.record.event);
  }

  lemma KeysSnoc(events: seq<Record>, r: Record)
    requires KeysUnique(events)
    requires forall i :: 0 <= i < |events| ==> events[i].event.idempotencyKey != r.event.idempotencyKey
    ensures KeysUnique(events + [r])
  {
  }

  lemma RowsSnoc(projectId: string, p: Project, r: Record, e: Event)
    requires |p.events| == |p.outbox| && RowsHold(projectId, p.events, p.outbox)
    requires ValidRow(projectId, r) && SameEvent(e, r.event)
    ensures RowsHold(projectId, p.events + [r], p.outbox + [e])
  {
    hide ValidRow, SameEvent;
    var events, outbox := p.events + [r], p.outbox + [e];
    forall i | 0 <= i < |events| ensures ValidRow(projectId, events[i]) && SameEvent(outbox[i], events[i].event) {
      if i < |p.events| {
        assert events[i] == p.events[i] && outbox[i] == p.outbox[i];
      }
    }
  }

  /** Whoever reads a project's log from the empty cursor on, page by page, sees all of it. */
  lemma AuthorityServesWholeLog(projectId: string, serviceKey: string, p: Project, limit: int)
    requires ValidProject(projectId, serviceKey, p) && |p.events| < 0x1_0000_0000_0000_0000 && 0 <= limit <= 500
    ensures exists pages :: Reads(p.events, "", limit, pages)
    ensures forall pages :: Reads(p.events, "", limit, pages) ==> Items(pages) == p.events
  {
    ReadersSeeWholeLog(p.events, serviceKey, limit);
  }

  /** No two events of a log share an ID, since padding a sequence loses nothing of it. */
  lemma EventIdsAreUnique(projectId: string, serviceKey: string, p: Project, i: nat, j: nat)
    requires ValidProject(projectId, serviceKey, p) && i < j < |p.events|
    ensures p.events[i].event.id != p.events[j].event.id
    ensures var id := p.events[i].event.id;
            && |id| >= 4 && id[..4] == "evt-"
            && (forall k :: 4 <= k < |id| ==> '0' <= id[k] <= '9')
            && (i + 1 < 100_000_000_000_000_000_000 ==> |id| == 24)
  {
    ChainOrdered(p.events, 1, Genesis, serviceKey);
    assert ValidRow(projectId, p.events[i]) && ValidRow(projectId, p.events[j]);
    IdNamesSequence(p.events[i].event.sequence);
    IdNamesSequence(p.events[j].event.sequence);
    hide Padded, Value;
    PaddedTwenty(i + 1);
  }

  lemma PaddedTwenty(sequence: nat)
    ensures EventId(sequence)[..4] == "evt-"
    ensures sequence < 100_000_000_000_000_000_000 ==> |Padded(sequence, 20)| == 20
  {
    hide Padded;
    assert Pow10(5) == 100_000;
    assert Pow10(10) == 10_000_000_000;
    assert Pow10(15) == 1_000_000_000_000_000;
    assert Pow10(20) == 100_000_000_000_000_000_000;
    if sequence < 100_000_000_000_000_000_000 {
      PaddedWidth(sequence, 20);
    }
  }

  lemma IdNamesSequence(sequence: nat)
    ensures EventId(sequence)[4..] == Padded(sequence, 20) && Value(EventId(sequence)[4..]) == sequence
  {
    PaddedReads(sequence, 20);
    assert EventId(sequence)[4..] == Padded(sequence, 20);
  }

  lemma ChainSnoc(rows: seq<Record>, r: Record, key: string)
    requires ChainHolds(rows, 1, Genesis, key)
    requires RowHolds(r, |rows| + 1, LastHash(rows, Genesis), key)
    ensures ChainHolds(rows + [r], 1, Genesis, key)
  {
    hide VerifyEventHash, VerifyReceipt;
    ChainConcat(rows, [r], 1, Genesis, key);
    assert [r][1..] == [];
  }
}
