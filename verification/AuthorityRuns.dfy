/** Whole runs of `Mutate` on one project: what every run keeps, what a retry returns, and exactly when
    the projection rows stay equal to the fold of the log. */
module AuthorityRuns {
  import opened Results
  import opened Contracts
  import opened Projection
  import opened Authority
  import opened Numerals

  /** A run visits projects `ps`, one call and one reply between neighbours. */
  datatype History = History(ps: seq<Project>, calls: seq<Call>, replies: seq<Result<Record>>)

  ghost predicate Run(rules: Rules, serviceKey: string, id: string, h: History) {
    && |h.ps| == |h.calls| + 1 == |h.replies| + 1
    && ValidProject(id, serviceKey, h.ps[0])
    && forall i :: 0 <= i < |h.calls| ==> StepAt(rules, serviceKey, id, h, i)
  }

  ghost predicate StepAt(rules: Rules, serviceKey: string, id: string, h: History, i: nat)
    requires i < |h.calls| && |h.ps| == |h.calls| + 1 == |h.replies| + 1
  {
    && h.calls[i].command.projectId == id && h.calls[i].clock >= MICROSECOND
    && MutateStep(rules, serviceKey, h.ps[i], h.ps[i + 1], h.calls[i], h.replies[i])
  }

  lemma StepKeepsLog(rules: Rules, serviceKey: string, id: string, p: Project, q: Project, call: Call,
                     reply: Result<Record>)
    requires ValidProject(id, serviceKey, p) && call.command.projectId == id && call.clock >= MICROSECOND
    requires MutateStep(rules, serviceKey, p, q, call, reply)
    ensures ValidProject(id, serviceKey, q)
    ensures p.events <= q.events
    ensures q == p || (|q.events| == |p.events| + 1 && FindKey(p.events, call.command.idempotencyKey).None?)
  {
    hide ValidProject, FindKey, Truncate, IntentHash, Decide, Stored, Persistable, Load;
    var c := call.command;
    if IntentHash(c).Some? && FindKey(p.events, c.idempotencyKey).None? && q != p {
      var now := Truncate(call.clock);
      TruncatedClock(call.clock);
      var plan := Decide(rules, serviceKey, p, c, IntentHash(c).value, now).value;
      CommitKeepsLog(rules, serviceKey, p, q, c, IntentHash(c).value, now, plan);
    }
  }

  /** Every project of a run satisfies the log invariant, and the log only grows at its end. */
  lemma {:induction false} RunKeepsLog(rules: Rules, serviceKey: string, id: string, h: History, i: nat, j: nat)
    requires Run(rules, serviceKey, id, h) && i <= j < |h.ps|
    ensures ValidProject(id, serviceKey, h.ps[j])
    ensures h.ps[i].events <= h.ps[j].events
    decreases j
  {
    hide ValidProject, MutateStep;
    if i < j {
      RunKeepsLog(rules, serviceKey, id, h, i, j - 1);
      assert StepAt(rules, serviceKey, id, h, j - 1);
      StepKeepsLog(rules, serviceKey, id, h.ps[j - 1], h.ps[j], h.calls[j - 1], h.replies[j - 1]);
    } else if 0 < j {
      RunKeepsLog(rules, serviceKey, id, h, 0, j - 1);
      assert StepAt(rules, serviceKey, id, h, j - 1);
      StepKeepsLog(rules, serviceKey, id, h.ps[j - 1], h.ps[j], h.calls[j - 1], h.replies[j - 1]);
    }
  }

  /** Any log a run reaches verifies over exactly the ranges whose predecessor exists. */
  lemma ReachedLogVerifies(rules: Rules, serviceKey: string, id: string, h: History, i: nat, from: nat, to: nat)
    requires Run(rules, serviceKey, id, h) && i < |h.ps|
    ensures RangeVerdict(h.ps[i].events, from, to, serviceKey).Ok? <==>
            (to == 0 || First(from) <= to) && First(from) - 1 <= |h.ps[i].events|
  {
    RunKeepsLog(rules, serviceKey, id, h, i, i);
    ChainedLogVerifies(h.ps[i].events, from, to, serviceKey);
  }

  // ---------------------------------------------------------------- who may append, and what

  /** A command may be recorded in a project at a time: it is complete, in time and expected there; the
      actor has a signing key, under which it verifies; and the transition rules admit it as this payload. */
  ghost predicate Entitled(rules: Rules, p: Project, c: Command, clock: nat, publicKey: string, payload: string) {
    var now := clock - clock % 1_000;
    && !Blank(c.projectId) && !Blank(c.actor) && !Blank(c.kind) && !Blank(c.idempotencyKey)
    && PayloadLength(c.payload) <= 262_144 && !c.payload.Malformed?
    && c.issuedAt > 0 && now - 300_000_000_000 <= c.issuedAt <= now + 300_000_000_000
    && rules.decodes(c)
    && rules.signingKey(Load(p.rows), c) == Ok(publicKey) && rules.verifies(c, publicKey)
    && (c.expectedSequence == 0 || c.expectedSequence == |p.events|)
    && rules.admit(Load(p.rows), |p.events|, p.owner, c, now) == Ok(payload)
  }

  /** The event that records it at the end of the log. */
  ghost predicate Records(rules: Rules, p: Project, c: Command, clock: nat, publicKey: string, payload: string,
                          e: Event) {
    && e.projectId == c.projectId && e.sequence == |p.events| + 1 && e.id == "evt-" + Padded(|p.events| + 1, 20)
    && e.time == clock - clock % 1_000
    && e.actor == c.actor && e.keyFingerprint == rules.fingerprint(publicKey)
    && e.kind == c.kind && e.entityId == c.entityId
    && e.payload.Json? && e.payload.value == payload
    && e.previousHash == LastHash(p.events, Genesis)
    && IntentHash(c) == Some(e.intentHash) && e.idempotencyKey == c.idempotencyKey
    && VerifyEventHash(e)
  }

  /** The record appended for a command: the event as it is stored, and the service's receipt for it. */
  ghost predicate Receipted(serviceKey: string, clock: nat, r: Record) {
    && r.receipt.signature == Signed(serviceKey, r.receipt.content)
    && r.receipt.content.projectId == r.event.projectId && r.receipt.content.sequence == r.event.sequence
    && r.receipt.content.eventId == r.event.id && r.receipt.content.eventHash == r.event.hash
    && r.receipt.content.intentHash == r.event.intentHash
    && r.receipt.content.committedAt == clock - clock % 1_000
  }

  ghost predicate NewKey(p: Project, key: string) {
    forall i :: 0 <= i < |p.events| ==> p.events[i].event.idempotencyKey != key
  }

  lemma PlanIsEntitled(rules: Rules, serviceKey: string, p: Project, c: Command, intent: Hash, clock: nat, plan: Plan)
    requires ValidProject(c.projectId, serviceKey, p) && clock >= MICROSECOND && IntentHash(c) == Some(intent)
    requires Decide(rules, serviceKey, p, c, intent, Truncate(clock)) == Ok(plan)
    ensures exists publicKey, payload ::
              && Entitled(rules, p, c, clock, publicKey, payload)
              && Records(rules, p, c, clock, publicKey, payload, Stored(rules, plan.record).event)
    ensures Receipted(serviceKey, clock, Stored(rules, plan.record))
  {
    TruncatedClock(clock);
    NewRecordHolds(rules, serviceKey, p, c, intent, Truncate(clock), plan);
    var publicKey := rules.signingKey(Load(p.rows), c).value;
    var payload := rules.admit(Load(p.rows), p.headSequence, p.owner, c, Truncate(clock)).value;
    hide VerifyEventHash, ChainHolds, RowsHold, KeysUnique;
    EntitledByDecision(rules, serviceKey, p, c, intent, clock, publicKey, payload);
    RecordsByDecision(rules, serviceKey, p, c, intent, clock, plan, publicKey, payload);
  }

  lemma EntitledByDecision(rules: Rules, serviceKey: string, p: Project, c: Command, intent: Hash, clock: nat,
                           publicKey: string, payload: string)
    requires p.headSequence == |p.events| && IntentHash(c) == Some(intent)
    requires Decide(rules, serviceKey, p, c, intent, Truncate(clock)).Ok?
    requires rules.signingKey(Load(p.rows), c) == Ok(publicKey)
    requires rules.admit(Load(p.rows), p.headSequence, p.owner, c, Truncate(clock)) == Ok(payload)
    ensures Entitled(rules, p, c, clock, publicKey, payload)
  {
    hide Load, Blank;
  }

  lemma RecordsByDecision(rules: Rules, serviceKey: string, p: Project, c: Command, intent: Hash, clock: nat,
                          plan: Plan, publicKey: string, payload: string)
    requires p.headSequence == |p.events| && p.headHash == LastHash(p.events, Genesis) && IntentHash(c) == Some(intent)
    requires Decide(rules, serviceKey, p, c, intent, Truncate(clock)) == Ok(plan)
    requires rules.signingKey(Load(p.rows), c) == Ok(publicKey)
    requires rules.admit(Load(p.rows), p.headSequence, p.owner, c, Truncate(clock)) == Ok(payload)
    requires VerifyEventHash(Stored(rules, plan.record).event) && Truncate(Truncate(clock)) == Truncate(clock)
    ensures Records(rules, p, c, clock, publicKey, payload, Stored(rules, plan.record).event)
    ensures Receipted(serviceKey, clock, Stored(rules, plan.record))
  {
    hide Load, VerifyEventHash, WellFormed, IntentHash, Padded;
  }

  /** Whatever a run appends, its command was entitled to, and the event says what the command said; its
      receipt is the service's, for that event. */
  lemma OnlyEntitledCommandsAppend(rules: Rules, serviceKey: string, id: string, h: History, i: nat)
    requires Run(rules, serviceKey, id, h) && i < |h.calls| && h.ps[i + 1] != h.ps[i]
    ensures |h.ps[i + 1].events| == |h.ps[i].events| + 1 && h.calls[i].fate != RollsBack
    ensures NewKey(h.ps[i], h.calls[i].command.idempotencyKey)
    ensures var c, clock := h.calls[i].command, h.calls[i].clock;
            var r := h.ps[i + 1].events[|h.ps[i].events|];
            && Receipted(serviceKey, clock, r)
            && exists publicKey, payload ::
                 && Entitled(rules, h.ps[i], c, clock, publicKey, payload)
                 && Records(rules, h.ps[i], c, clock, publicKey, payload, r.event)
  {
    hide ValidProject, Entitled, Records, Receipted, Decide, IntentHash, FindKey, Truncate, Stored, Persistable, Load;
    RunKeepsLog(rules, serviceKey, id, h, i, i);
    assert StepAt(rules, serviceKey, id, h, i);
    var p, c := h.ps[i], h.calls[i].command;
    FoundKey(p.events, c.idempotencyKey);
    var plan := Decide(rules, serviceKey, p, c, IntentHash(c).value, Truncate(h.calls[i].clock)).value;
    PlanIsEntitled(rules, serviceKey, p, c, IntentHash(c).value, h.calls[i].clock, plan);
  }

  lemma EntitledIsDecided(rules: Rules, serviceKey: string, p: Project, c: Command, intent: Hash, clock: nat,
                          publicKey: string, payload: string, e: Event)
    requires ValidProject(c.projectId, serviceKey, p) && IntentHash(c) == Some(intent)
    requires Entitled(rules, p, c, clock, publicKey, payload) && Records(rules, p, c, clock, publicKey, payload, e)
    requires ApplyEvent(rules.apply, Load(p.rows), e).Some?
    ensures Decide(rules, serviceKey, p, c, intent, Truncate(clock)).Ok?
  {
    hide ChainHolds, RowsHold, KeysUnique, Load;
    var r := NewRecord(rules, serviceKey, p, c, intent, Truncate(clock), publicKey, payload);
    assert r.event.(payload := e.payload) == e;
    assert ApplyEvent(rules.apply, Load(p.rows), r.event) == ApplyEvent(rules.apply, Load(p.rows), e);
  }

  /** And an entitled command with a new key, whose event folds, is appended unless the transaction is rolled
      back; the caller hears of it exactly if the reply gets through. */
  lemma EntitledCommandsAppend(rules: Rules, serviceKey: string, id: string, h: History, i: nat, publicKey: string,
                               payload: string, e: Event)
    requires Run(rules, serviceKey, id, h) && i < |h.calls|
    requires NewKey(h.ps[i], h.calls[i].command.idempotencyKey) && h.calls[i].fate != RollsBack
    requires Entitled(rules, h.ps[i], h.calls[i].command, h.calls[i].clock, publicKey, payload)
    requires Records(rules, h.ps[i], h.calls[i].command, h.calls[i].clock, publicKey, payload, e)
    requires ApplyEvent(rules.apply, Load(h.ps[i].rows), e).Some?
    ensures |h.ps[i + 1].events| == |h.ps[i].events| + 1 && h.ps[i].events <= h.ps[i + 1].events
    ensures SameEvent(h.ps[i + 1].events[|h.ps[i].events|].event, e)
    ensures if h.calls[i].fate == Commits then h.replies[i].Ok? && SameEvent(h.replies[i].value.event, e)
            else h.replies[i] == Err(Unavailable)
  {
    hide ValidProject, Entitled, Records, Receipted, Decide, IntentHash, FindKey, Truncate, Stored, Persistable, Load;
    hide SameEvent, VerifyEventHash;
    RunKeepsLog(rules, serviceKey, id, h, i, i);
    assert StepAt(rules, serviceKey, id, h, i);
    var p, c, clock := h.ps[i], h.calls[i].command, h.calls[i].clock;
    FoundKey(p.events, c.idempotencyKey);
    RecordsAnIntent(rules, p, c, clock, publicKey, payload, e);
    var intent := IntentHash(c).value;
    EntitledIsDecided(rules, serviceKey, p, c, intent, clock, publicKey, payload, e);
    var plan := Decide(rules, serviceKey, p, c, intent, Truncate(clock)).value;
    PlanIsEntitled(rules, serviceKey, p, c, intent, clock, plan);
    var key', payload' :| Entitled(rules, p, c, clock, key', payload')
                          && Records(rules, p, c, clock, key', payload', Stored(rules, plan.record).event);
    SameRecord(rules, p, c, clock, publicKey, payload, e, key', payload', Stored(rules, plan.record).event);
    TruncatedClock(clock);
    NewRecordHolds(rules, serviceKey, p, c, intent, Truncate(clock), plan);
    SameEventTransitive(plan.record.event, Stored(rules, plan.record).event, e);
  }

  lemma RecordsAnIntent(rules: Rules, p: Project, c: Command, clock: nat, publicKey: string, payload: string, e: Event)
    requires Records(rules, p, c, clock, publicKey, payload, e)
    ensures IntentHash(c).Some?
  {
  }

  lemma SameRecord(rules: Rules, p: Project, c: Command, clock: nat, publicKey: string, payload: string, e: Event,
                   otherKey: string, otherPayload: string, other: Event)
    requires Entitled(rules, p, c, clock, publicKey, payload) && Records(rules, p, c, clock, publicKey, payload, e)
    requires Entitled(rules, p, c, clock, otherKey, otherPayload)
    requires Records(rules, p, c, clock, otherKey, otherPayload, other)
    ensures SameEvent(other, e)
  {
    hide Load, Blank, Padded;
    HashIdentifiesEvent(e, other);
  }

  lemma SameEventTransitive(a: Event, b: Event, c: Event)
    ensures SameEvent(a, b) && SameEvent(b, c) ==> SameEvent(a, c)
  {
  }

  /** Why a command may not be recorded: the first reason that applies. */
  function Objection(rules: Rules, p: Project, c: Command, clock: nat): Option<ErrorCode> {
    var now := clock - clock % 1_000;
    if c.payload.Malformed? || Blank(c.projectId) || Blank(c.actor) || Blank(c.kind) || Blank(c.idempotencyKey)
       || PayloadLength(c.payload) > 262_144 || c.issuedAt == 0 || c.issuedAt < now - 300_000_000_000
       || c.issuedAt > now + 300_000_000_000 || !rules.decodes(c) then Some(Validation)
    else
      match rules.signingKey(Load(p.rows), c)
      case Err(code) => Some(code)
      case Ok(publicKey) =>
        if !rules.verifies(c, publicKey) then Some(Integrity)
        else if c.expectedSequence != 0 && c.expectedSequence != |p.events| then Some(StalePrecondition)
        else
          match rules.admit(Load(p.rows), |p.events|, p.owner, c, now)
          case Err(code) => Some(code)
          case Ok(_) => None
  }

  lemma ObjectionIsRaised(rules: Rules, serviceKey: string, p: Project, c: Command, intent: Hash, clock: nat)
    requires p.headSequence == |p.events| && Objection(rules, p, c, clock).Some? && IntentHash(c).Some?
    ensures Decide(rules, serviceKey, p, c, intent, Truncate(clock)) == Err(Objection(rules, p, c, clock).value)
  {
    hide Load, Blank, NewRecord, ApplyEvent;
  }

  /** A new command that may not be recorded is refused for the first reason that applies, and changes nothing. */
  lemma RefusedCommands(rules: Rules, serviceKey: string, id: string, h: History, i: nat)
    requires Run(rules, serviceKey, id, h) && i < |h.calls|
    requires NewKey(h.ps[i], h.calls[i].command.idempotencyKey)
    requires Objection(rules, h.ps[i], h.calls[i].command, h.calls[i].clock).Some?
    ensures h.ps[i + 1] == h.ps[i]
    ensures h.replies[i] == Err(Objection(rules, h.ps[i], h.calls[i].command, h.calls[i].clock).value)
  {
    hide ValidProject, FindKey, Load, Blank, Decide, Committed, Truncate;
    RunKeepsLog(rules, serviceKey, id, h, i, i);
    assert StepAt(rules, serviceKey, id, h, i);
    var p, c, clock := h.ps[i], h.calls[i].command, h.calls[i].clock;
    FoundKey(p.events, c.idempotencyKey);
    HeadIsLength(id, serviceKey, p);
    if IntentHash(c).Some? {
      ObjectionIsRaised(rules, serviceKey, p, c, IntentHash(c).value, clock);
    }
  }

  lemma HeadIsLength(id: string, serviceKey: string, p: Project)
    requires ValidProject(id, serviceKey, p)
    ensures p.headSequence == |p.events|
  {
  }

  // ---------------------------------------------------------------- at-most-once

  /** A call that changed the project committed its command under its own key and intent. */
  lemma CommittedCall(rules: Rules, serviceKey: string, p: Project, q: Project, call: Call, reply: Result<Record>,
                      id: string)
    requires ValidProject(id, serviceKey, p) && call.command.projectId == id && call.clock >= MICROSECOND
    requires MutateStep(rules, serviceKey, p, q, call, reply) && q != p
    ensures var c := call.command;
            && FindKey(q.events, c.idempotencyKey) == Some(q.events[|p.events|])
            && IntentHash(c) == Some(q.events[|p.events|].event.intentHash)
            && (c.expectedSequence != 0 ==> q.events[|p.events|].event.sequence == c.expectedSequence + 1)
            && (reply.Ok? ==>
                  && SameEvent(reply.value.event, q.events[|p.events|].event)
                  && reply.value.receipt == q.events[|p.events|].receipt)
  {
    var c := call.command;
    var now := Truncate(call.clock);
    TruncatedClock(call.clock);
    var plan := Decide(rules, serviceKey, p, c, IntentHash(c).value, now).value;
    NewRecordHolds(rules, serviceKey, p, c, IntentHash(c).value, now, plan);
    AppendedKeyFound(p.events, Stored(rules, plan.record));
    DecidedExpectation(rules, serviceKey, p, c, IntentHash(c).value, now, plan);
    hide Decide, IntentHash, FindKey, Stored, VerifyEventHash, Truncate;
  }

  lemma DecidedExpectation(rules: Rules, serviceKey: string, p: Project, c: Command, intent: Hash, now: nat, plan: Plan)
    requires Decide(rules, serviceKey, p, c, intent, now) == Ok(plan)
    ensures c.expectedSequence != 0 ==> c.expectedSequence == p.headSequence
  {
  }

  /** A command with a non-zero expected sequence k that commits, lands at k+1. */
  lemma LandsAfterExpected(rules: Rules, serviceKey: string, id: string, h: History, i: nat)
    requires Run(rules, serviceKey, id, h) && i < |h.calls| && h.ps[i + 1] != h.ps[i]
    requires h.calls[i].command.expectedSequence != 0
    ensures |h.ps[i + 1].events| == h.calls[i].command.expectedSequence + 1
    ensures var k := h.calls[i].command.expectedSequence;
            h.ps[i + 1].events[k].event.sequence == k + 1
  {
    hide MutateStep, ValidProject;
    RunKeepsLog(rules, serviceKey, id, h, i, i);
    assert StepAt(rules, serviceKey, id, h, i);
    StepKeepsLog(rules, serviceKey, id, h.ps[i], h.ps[i + 1], h.calls[i], h.replies[i]);
    CommittedCall(rules, serviceKey, h.ps[i], h.ps[i + 1], h.calls[i], h.replies[i], id);
    LastSequence(id, serviceKey, h.ps[i + 1]);
  }

  lemma LastSequence(id: string, serviceKey: string, p: Project)
    requires ValidProject(id, serviceKey, p)
    ensures forall i :: 0 <= i < |p.events| ==> p.events[i].event.sequence == i + 1
  {
    ChainOrdered(p.events, 1, Genesis, serviceKey);
  }

  /** The event call i committed is the one its key finds ever after. */
  lemma OriginalStays(rules: Rules, serviceKey: string, id: string, h: History, i: nat, j: nat)
    requires Run(rules, serviceKey, id, h) && i < j < |h.calls| && |h.ps[i].events| < |h.ps[i + 1].events|
    ensures FindKey(h.ps[j].events, h.calls[i].command.idempotencyKey) == Some(h.ps[i + 1].events[|h.ps[i].events|])
  {
    hide ValidProject, FindKey, MutateStep;
    RunKeepsLog(rules, serviceKey, id, h, i, i);
    RunKeepsLog(rules, serviceKey, id, h, i + 1, j);
    assert StepAt(rules, serviceKey, id, h, i);
    CommittedCall(rules, serviceKey, h.ps[i], h.ps[i + 1], h.calls[i], h.replies[i], id);
    var before, now := h.ps[i + 1].events, h.ps[j].events;
    FoundKeyStays(before, now[|before|..], h.calls[i].command.idempotencyKey);
    assert now == before + now[|before|..];
  }

  /** A key commits at most once: after call i has committed under a key, no later call with that key
      changes anything; one with the same intent gets the original event and receipt back, one with
      another intent is refused. */
  lemma AtMostOnce(rules: Rules, serviceKey: string, id: string, h: History, i: nat, j: nat)
    requires Run(rules, serviceKey, id, h) && i < j < |h.calls| && |h.ps[i].events| < |h.ps[i + 1].events|
    requires h.calls[j].command.idempotencyKey == h.calls[i].command.idempotencyKey
    ensures h.ps[j + 1] == h.ps[j]
    ensures var original := h.ps[i + 1].events[|h.ps[i].events|];
            var first, again := h.calls[i].command, h.calls[j].command;
            && (IntentHash(again) == IntentHash(first) && h.calls[j].fate == Commits ==> h.replies[j] == Ok(original))
            && (IntentHash(again) != IntentHash(first) ==>
                  h.replies[j] == Err(if IntentHash(again).None? then Validation else Conflict))
            && (h.replies[i].Ok? ==>
                  SameEvent(h.replies[i].value.event, original.event) && h.replies[i].value.receipt == original.receipt)
  {
    hide ValidProject, FindKey, IntentHash, Decide, SameEvent;
    OriginalStays(rules, serviceKey, id, h, i, j);
    RunKeepsLog(rules, serviceKey, id, h, i, i);
    assert StepAt(rules, serviceKey, id, h, i);
    assert StepAt(rules, serviceKey, id, h, j);
    CommittedCall(rules, serviceKey, h.ps[i], h.ps[i + 1], h.calls[i], h.replies[i], id);
  }

  // ---------------------------------------------------------------- rows against the fold

  /** The rows hold the fold of the log. */
  ghost predicate Faithful(rules: Rules, p: Project) {
    Fold(rules.apply, p.events) == Some(Load(p.rows))
  }

  /** The event a call commits, if it commits one, survives the diff write. */
  ghost predicate PersistsAt(rules: Rules, serviceKey: string, h: History, i: nat)
    requires i < |h.calls| && |h.ps| == |h.calls| + 1
  {
    h.ps[i + 1] != h.ps[i] ==>
      exists plan ::
        Planned(rules, serviceKey, h.ps[i], h.calls[i], plan) && Persistable(Load(h.ps[i].rows), plan.after)
  }

  ghost predicate Planned(rules: Rules, serviceKey: string, p: Project, call: Call, plan: Plan) {
    && IntentHash(call.command).Some?
    && Decide(rules, serviceKey, p, call.command, IntentHash(call.command).value, Truncate(call.clock)) == Ok(plan)
  }

  /** One commit over faithful rows is faithful exactly when its change is persistable. */
  lemma CommitTracksFold(rules: Rules, serviceKey: string, p: Project, q: Project, call: Call, plan: Plan)
    requires Faithful(rules, p) && call.clock >= MICROSECOND
    requires Planned(rules, serviceKey, p, call, plan) && Committed(rules, p, q, plan)
    ensures Fold(rules.apply, q.events) == Some(plan.after)
    ensures Faithful(rules, q) <==> Persistable(Load(p.rows), plan.after)
  {
    TruncatedClock(call.clock);
    NewRecordHolds(rules, serviceKey, p, call.command, IntentHash(call.command).value, Truncate(call.clock), plan);
    FoldSnoc(rules.apply, p.events, Stored(rules, plan.record));
    DecidedState(rules, serviceKey, p, call.command, IntentHash(call.command).value, Truncate(call.clock), plan);
    hide Decide, Persistable, Stored, Fold, VerifyEventHash;
  }

  lemma DecidedState(rules: Rules, serviceKey: string, p: Project, c: Command, intent: Hash, now: nat, plan: Plan)
    requires Decide(rules, serviceKey, p, c, intent, now) == Ok(plan)
    ensures ApplyEvent(rules.apply, Load(p.rows), plan.record.event) == Some(plan.after)
  {
  }

  lemma StepTracksFold(rules: Rules, serviceKey: string, id: string, h: History, i: nat)
    requires Run(rules, serviceKey, id, h) && i < |h.calls| && Faithful(rules, h.ps[i])
    ensures Faithful(rules, h.ps[i + 1]) <==> PersistsAt(rules, serviceKey, h, i)
  {
    assert StepAt(rules, serviceKey, id, h, i);
    hide ValidProject, Faithful, Decide, Persistable, FindKey, Truncate;
    if h.ps[i + 1] != h.ps[i] {
      var c := h.calls[i].command;
      var plan := Decide(rules, serviceKey, h.ps[i], c, IntentHash(c).value, Truncate(h.calls[i].clock)).value;
      assert Planned(rules, serviceKey, h.ps[i], h.calls[i], plan);
      CommitTracksFold(rules, serviceKey, h.ps[i], h.ps[i + 1], h.calls[i], plan);
    }
  }

  /** The rows equal the fold of the log throughout a run exactly when every committed event is one
      the diff write can carry. */
  lemma {:induction false} RowsTrackFold(rules: Rules, serviceKey: string, id: string, h: History, n: nat)
    requires Run(rules, serviceKey, id, h) && n < |h.ps| && Faithful(rules, h.ps[0])
    ensures (forall i :: 0 <= i <= n ==> Faithful(rules, h.ps[i])) <==>
            (forall i :: 0 <= i < n ==> PersistsAt(rules, serviceKey, h, i))
  {
    hide Faithful, PersistsAt, StepAt, ValidProject;
    if n > 0 {
      RowsTrackFold(rules, serviceKey, id, h, n - 1);
      if Faithful(rules, h.ps[n - 1]) {
        StepTracksFold(rules, serviceKey, id, h, n - 1);
      }
    }
  }

  /** A fresh project starts faithful, so the theorem above covers every run from its creation. */
  lemma FreshProjectIsFaithful(rules: Rules, owner: string)
    ensures Faithful(rules, Project(owner, 0, Genesis, [], NO_ROWS, []))
  {
  }

  /** `env.delete` and `runtime.delete` are such events: committing one over faithful rows leaves the
      removed row in place, and the rows part from the log. */
  lemma RemovalDiverges(rules: Rules, serviceKey: string, p: Project, q: Project, call: Call, plan: Plan, k: Key)
    requires Faithful(rules, p) && call.clock >= MICROSECOND
    requires Planned(rules, serviceKey, p, call, plan) && Committed(rules, p, q, plan)
    requires k in p.rows.entities && k.kind != Agents
    requires plan.after == Load(p.rows).(entities := p.rows.entities - {k})
    ensures !Faithful(rules, q) && Load(q.rows) == Load(p.rows)
  {
    hide Decide, Persistable, Addressed, WithLeftovers;
    RemovalIsNotPersisted(Load(p.rows), k);
    RemovalChangesNothing(Load(p.rows), k);
    CommitTracksFold(rules, serviceKey, p, q, call, plan);
  }
}
