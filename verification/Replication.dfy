/** All interleavings of authority commands with applies on the cache, whether from the command path or
    from a sync, in any order and with any repetition. */
module Replication {
  import opened Results
  import opened Contracts
  import opened Projection
  import opened Authority
  import opened AuthorityRuns
  import opened LocalCache

  datatype World = World(project: Project, view: View)

  datatype Action =
    | Submit(call: Call, reply: Result<Record>)
    | Present(event: Event, receipt: Receipt)

  ghost predicate ActionStep(rules: Rules, key: string, id: string, a: World, b: World, action: Action) {
    match action
    case Submit(call, reply) =>
      && call.command.projectId == id && call.clock >= MICROSECOND
      && MutateStep(rules, key, a.project, b.project, call, reply)
      && b.view == a.view
    case Present(e, r) =>
      // Any event at all, under any receipt that is not a forgery: the service's signature on this
      // project appears only on receipts its log has released.
      && e.projectId == id && Genuine(id, key, a.project.events, r)
      && b.project == a.project
      && b.view == var verdict := ApplyVerdict(rules.apply, key, a.view, e, r);
                   if verdict.Ok? then verdict.value else a.view
  }

  ghost predicate Interleaving(rules: Rules, key: string, id: string, ws: seq<World>, actions: seq<Action>) {
    && |ws| == |actions| + 1
    && ValidProject(id, key, ws[0].project)
    && Mirrors(rules.apply, key, ws[0].view, ws[0].project.events)
    && forall i :: 0 <= i < |actions| ==> ActionStep(rules, key, id, ws[i], ws[i + 1], actions[i])
  }

  /** A new project and a fresh cache begin an interleaving, so what holds of all of them holds from the start. */
  lemma FreshStart(rules: Rules, key: string, id: string, owner: string)
    ensures Interleaving(rules, key, id, [World(Project(owner, 0, Genesis, [], NO_ROWS, []), EMPTY_VIEW)], [])
  {
    EmptyMirror(rules.apply, key, []);
  }

  lemma ValidIsAuthoritative(id: string, key: string, p: Project)
    requires ValidProject(id, key, p)
    ensures Authoritative(id, key, p.events)
  {
  }

  /** In every reachable world the cache mirrors the authority's log, and it never goes back. */
  lemma {:induction false} EveryInterleavingMirrors(rules: Rules, key: string, id: string, ws: seq<World>,
                                                    actions: seq<Action>, i: nat)
    requires Interleaving(rules, key, id, ws, actions) && i < |ws|
    ensures ValidProject(id, key, ws[i].project)
    ensures Mirrors(rules.apply, key, ws[i].view, ws[i].project.events)
    ensures i > 0 ==> ws[i - 1].view.events <= ws[i].view.events && ws[i - 1].project.events <= ws[i].project.events
  {
    hide ValidProject, Mirrors, MutateStep, ApplyVerdict, Genuine;
    if i > 0 {
      var a, b := ws[i - 1], ws[i];
      EveryInterleavingMirrors(rules, key, id, ws, actions, i - 1);
      assert ActionStep(rules, key, id, a, ws[i - 1 + 1], actions[i - 1]);
      match actions[i - 1] {
        case Submit(call, reply) =>
          StepKeepsLog(rules, key, id, a.project, b.project, call, reply);
          MirrorOfLongerLog(rules.apply, key, a.view, a.project.events, b.project.events);
        case Present(e, r) =>
          ValidIsAuthoritative(id, key, a.project);
          ApplyKeepsMirror(rules.apply, key, id, a.view, a.project.events, e, r);
      }
    }
  }

  /** Two stores, one state: a cache that has caught up holds the state the authority's rows hold, as
      long as the rows are faithful to the log. */
  lemma CaughtUpCacheAgreesWithRows(rules: Rules, key: string, p: Project, v: View)
    requires Mirrors(rules.apply, key, v, p.events) && |v.events| == |p.events|
    ensures LoadProject(v).state == Load(p.rows) <==> Faithful(rules, p)
  {
    hide ChainHolds, SameEvent, Fold;
    MirrorMeaning(rules.apply, key, v, p.events, 1, 0);
    assert p.events[..|v.events|] == p.events;
  }
}

/** The daemon: paged catch-up of the cache, and the path of one command through authority and cache. */
module Daemon {
  import opened Results
  import opened Contracts
  import opened Projection
  import opened Cursor
  import opened Paging
  import opened Authority
  import opened LocalCache
  import opened Replication

  const SYNC_PAGE_SIZE := MAX_PAGE_SIZE

  /** How many pages it takes to fetch n records. */
  function Fetches(n: nat): (k: nat)
    ensures k >= 1
  {
    if n <= SYNC_PAGE_SIZE then 1 else 1 + Fetches(n - SYNC_PAGE_SIZE)
  }

  /** Five hundred records a page, and one page even when nothing is missing. */
  lemma {:induction false} FetchesAre(n: nat)
    ensures Fetches(n) == if n <= 500 then 1 else (n + 499) / 500
  {
    if n > 500 {
      FetchesAre(n - 500);
    }
  }

  /** Where the catch-up loop is: it has visited the log from `start` to `after`, with so many fetches,
      all of them answered. */
  ghost predicate Progress(log: seq<Record>, start: nat, after: nat, visited: seq<Record>, fetched: nat,
                           reachable: nat -> bool) {
    && start <= after <= |log| && visited == log[start..after]
    && fetched + Fetches(|log| - after) == Fetches(|log| - start)
    && forall k: nat :: k < fetched ==> reachable(k)
  }

  ghost predicate Answered(n: nat, reachable: nat -> bool) {
    forall k: nat :: k < n ==> reachable(k)
  }

  lemma ProgressStarts(log: seq<Record>, start: nat, reachable: nat -> bool)
    requires start <= |log|
    ensures Progress(log, start, start, [], 0, reachable)
  {
  }

  /** The loop stops short with what it has visited; if the fetch was not answered, the sync needed it. */
  lemma ProgressStops(log: seq<Record>, start: nat, after: nat, visited: seq<Record>, fetched: nat,
                      reachable: nat -> bool, seen: seq<Record>)
    requires Progress(log, start, after, visited, fetched, reachable) && seen <= log[after..]
    ensures start <= |log| && visited + seen <= log[start..]
    ensures !reachable(fetched) ==> !Answered(Fetches(|log| - start), reachable)
  {
  }

  lemma ProgressEnds(log: seq<Record>, start: nat, after: nat, visited: seq<Record>, fetched: nat,
                     reachable: nat -> bool, seen: seq<Record>)
    requires Progress(log, start, after, visited, fetched, reachable) && seen <= log[after..]
    requires after + |seen| == |log| && |seen| <= SYNC_PAGE_SIZE && reachable(fetched)
    ensures visited + seen == log[start..] && Answered(Fetches(|log| - start), reachable)
  {
  }

  lemma ProgressContinues(log: seq<Record>, start: nat, after: nat, visited: seq<Record>, fetched: nat,
                          reachable: nat -> bool, seen: seq<Record>)
    requires Progress(log, start, after, visited, fetched, reachable) && seen <= log[after..]
    requires |seen| == SYNC_PAGE_SIZE && after + |seen| < |log| && reachable(fetched)
    ensures Progress(log, start, after + |seen|, visited + seen, fetched + 1, reachable)
  {
    assert log[start..after] + log[after..after + |seen|] == log[start..after + |seen|];
  }

  /** A page of a chained log is the next stretch of it, with a cursor exactly when more follows. */
  lemma PageOfLog(log: seq<Record>, key: string, after: nat)
    requires ChainHolds(log, 1, Genesis, key) && after <= |log| < UINT64_LIMIT
    ensures var end := if |log| - after > SYNC_PAGE_SIZE then after + SYNC_PAGE_SIZE else |log|;
            var verdict := PageVerdict(log, EncodeCursor(after), SYNC_PAGE_SIZE);
            && verdict.Ok?
            && verdict.value.items == log[after..end]
            && (verdict.value.nextCursor == "" <==> end == |log|)
            && (end < |log| ==> verdict.value.nextCursor == EncodeCursor(end))
  {
    hide EncodeCursor, DecodeCursor, ChainHolds, PageVerdict;
    CursorRoundTrip(after + SYNC_PAGE_SIZE);
    LaterPage(log, key, after, SYNC_PAGE_SIZE);
  }

  class Daemon {
    const remote: Engine
    const cache: Cache

    constructor (remote: Engine, cache: Cache)
      ensures this.remote == remote && this.cache == cache
    {
      this.remote, this.cache := remote, cache;
    }

    ghost predicate Wired(projectId: string)
      reads this, remote, cache
    {
      && cache.serverKey == remote.serviceKey && cache.apply == remote.rules.apply
      && remote.Valid()
      && Mirrors(cache.apply, cache.serverKey, cache.ViewOf(projectId), remote.Table(projectId))
    }

    /** `syncProject`: page the log from the cached sequence and apply every record; `reachable` says
        which of its requests for a page are answered.  It succeeds exactly when all it needs are and
        the log folds, and then the cache holds all of it; each missing record is visited once, in order. */
    method SyncProject(projectId: string, reachable: nat -> bool) returns (r: Result<()>, ghost visited: seq<Record>)
      requires Wired(projectId) && |remote.Table(projectId)| < UINT64_LIMIT
      modifies cache
      ensures Wired(projectId)
      ensures var log, start := remote.Table(projectId), |old(cache.ViewOf(projectId)).events|;
              && (r.Ok? <==> Fold(cache.apply, log).Some? && Answered(Fetches(|log| - start), reachable))
              && (r.Ok? ==> |cache.ViewOf(projectId).events| == |log| && visited == log[start..])
              && visited <= log[start..]
      ensures old(cache.ViewOf(projectId)).events <= cache.ViewOf(projectId).events
      ensures forall other :: other != projectId ==> cache.ViewOf(other) == old(cache.ViewOf(other))
    {
      hide Wired, Fold, EncodeCursor, Progress, Fetches, LoadProject;
      ghost var log := remote.Table(projectId);
      ghost var start := |cache.ViewOf(projectId).events|;
      var sequence := 0;
      var state := cache.State(projectId);
      if state.Ok? {
        sequence := state.value.1;
      }
      Cached(projectId);
      ghost var after := sequence;
      var cursor := EncodeCursor(sequence);
      visited := [];
      var fetched := 0;
      ProgressStarts(log, start, reachable);
      while true
        invariant Wired(projectId) && remote.Table(projectId) == log
        invariant after <= |log| && |cache.ViewOf(projectId).events| == after
        invariant cursor == EncodeCursor(after)
        invariant Progress(log, start, after, visited, fetched, reachable)
        invariant old(cache.ViewOf(projectId)).events <= cache.ViewOf(projectId).events
        invariant forall other :: other != projectId ==> cache.ViewOf(other) == old(cache.ViewOf(other))
        decreases |log| - after
      {
        var next;
        ghost var seen;
        next, seen := SyncPage(projectId, cursor, reachable(fetched), after);
        ProgressStops(log, start, after, visited, fetched, reachable, seen);
        if next.Err? {
          visited := visited + seen;
          return Err(next.code), visited;
        }
        if next.value == "" {
          Cached(projectId);
          ProgressEnds(log, start, after, visited, fetched, reachable, seen);
          visited := visited + seen;
          return Ok(()), visited;
        }
        ProgressContinues(log, start, after, visited, fetched, reachable, seen);
        visited := visited + seen;
        after := after + |seen|;
        cursor := next.value;
        fetched := fetched + 1;
      }
    }

    /** The cached events are no more than the log, and if they are all of it the log folds. */
    lemma Cached(projectId: string)
      requires Wired(projectId)
      ensures var v, log := cache.ViewOf(projectId), remote.Table(projectId);
              && |v.events| <= |log|
              && (match v.row case None => 0 case Some(row) => row.sequence) == |v.events|
              && (|v.events| == |log| ==> Fold(cache.apply, log).Some?)
    {
      hide Mirrors, Fold;
      var v, log := cache.ViewOf(projectId), remote.Table(projectId);
      CachedSequence(cache.apply, cache.serverKey, v, log);
      if |v.events| == |log| {
        WholeFold(cache.apply, cache.serverKey, v, log);
      }
    }

    /** The page at a cursor is the next stretch of the log. */
    lemma NextPage(projectId: string, after: nat)
      requires Wired(projectId) && after <= |remote.Table(projectId)| < UINT64_LIMIT
      ensures var log := remote.Table(projectId);
              var end := if |log| - after > SYNC_PAGE_SIZE then after + SYNC_PAGE_SIZE else |log|;
              var verdict := PageVerdict(log, EncodeCursor(after), SYNC_PAGE_SIZE);
              && verdict.Ok? && verdict.value.items == log[after..end]
              && (verdict.value.nextCursor == "" <==> end == |log|)
              && (end < |log| ==> verdict.value.nextCursor == EncodeCursor(end))
    {
      LogOf(projectId);
      hide Wired, ChainHolds, PageVerdict, EncodeCursor;
      LogChains(projectId, remote.serviceKey, remote.Table(projectId));
      PageOfLog(remote.Table(projectId), remote.serviceKey, after);
    }

    /** One turn of the catch-up loop: fetch the page at the cursor and apply it. */
    method SyncPage(projectId: string, cursor: string, answered: bool, ghost after: nat)
      returns (next: Result<string>, ghost seen: seq<Record>)
      requires Wired(projectId) && |remote.Table(projectId)| < UINT64_LIMIT
      requires cursor == EncodeCursor(after) && |cache.ViewOf(projectId).events| == after <= |remote.Table(projectId)|
      modifies cache
      ensures Wired(projectId)
      ensures seen <= remote.Table(projectId)[after..]
      ensures next.Ok? ==>
                && |cache.ViewOf(projectId).events| == after + |seen|
                && (next.value == "" <==> after + |seen| == |remote.Table(projectId)|)
                && (next.value != "" ==> |seen| == SYNC_PAGE_SIZE && next.value == EncodeCursor(after + |seen|))
                && (next.value == "" ==> |seen| <= SYNC_PAGE_SIZE)
      ensures !answered ==> next.Err?
      ensures next.Err? ==> !answered || Fold(cache.apply, remote.Table(projectId)).None?
      ensures old(cache.ViewOf(projectId)).events <= cache.ViewOf(projectId).events
      ensures forall other :: other != projectId ==> cache.ViewOf(other) == old(cache.ViewOf(other))
    {
      hide Wired, Fold, EncodeCursor, PageVerdict;
      NextPage(projectId, after);
      if !answered {
        return Err(Unavailable), [];
      }
      var page := remote.Events(projectId, cursor, SYNC_PAGE_SIZE);
      if page.Err? {
        assert false;
      }
      var applied;
      applied, seen := ApplyPage(projectId, page.value.items, after);
      return if applied.Err? then Err(applied.code) else Ok(page.value.nextCursor), seen;
    }

    lemma LogOf(projectId: string)
      requires Wired(projectId)
      ensures Authoritative(projectId, remote.serviceKey, remote.Table(projectId))
    {
      if projectId in remote.projects {
        ValidIsAuthoritative(projectId, remote.serviceKey, remote.projects[projectId]);
      }
    }

    /** The inner loop: apply a page that starts right after the cached prefix. */
    method ApplyPage(projectId: string, items: seq<Record>, ghost after: nat)
      returns (r: Result<()>, ghost seen: seq<Record>)
      requires Wired(projectId)
      requires |cache.ViewOf(projectId).events| == after && after + |items| <= |remote.Table(projectId)|
      requires items == remote.Table(projectId)[after..after + |items|]
      modifies cache
      ensures Wired(projectId)
      ensures seen <= items
      ensures r.Ok? ==> seen == items && |cache.ViewOf(projectId).events| == after + |items|
      ensures r.Err? ==> Fold(cache.apply, remote.Table(projectId)).None?
      ensures old(cache.ViewOf(projectId)).events <= cache.ViewOf(projectId).events
      ensures forall other :: other != projectId ==> cache.ViewOf(other) == old(cache.ViewOf(other))
    {
      hide Wired, Fold;
      ghost var log := remote.Table(projectId);
      seen := [];
      for i := 0 to |items|
        invariant Wired(projectId) && seen == items[..i]
        invariant |cache.ViewOf(projectId).events| == after + i
        invariant old(cache.ViewOf(projectId)).events <= cache.ViewOf(projectId).events
        invariant forall other :: other != projectId ==> cache.ViewOf(other) == old(cache.ViewOf(other))
      {
        var record := items[i];
        assert record == log[after + i];
        seen := seen + [record];
        var applied := ApplyNext(projectId, record);
        if applied.Err? {
          return applied, seen;
        }
      }
      return Ok(()), seen;
    }

    /** Apply the record right after the cached prefix. */
    method ApplyNext(projectId: string, record: Record) returns (r: Result<()>)
      requires Wired(projectId) && |cache.ViewOf(projectId).events| < |remote.Table(projectId)|
      requires record == remote.Table(projectId)[|cache.ViewOf(projectId).events|]
      modifies cache
      ensures Wired(projectId)
      ensures r.Ok? ==> |cache.ViewOf(projectId).events| == |old(cache.ViewOf(projectId)).events| + 1
      ensures r.Err? ==> Fold(cache.apply, remote.Table(projectId)).None?
      ensures old(cache.ViewOf(projectId)).events <= cache.ViewOf(projectId).events
      ensures forall other :: other != projectId ==> cache.ViewOf(other) == old(cache.ViewOf(other))
    {
      hide Mirrors, Fold, ApplyVerdict, ValidProject, Authoritative;
      LogOf(projectId);
      NextRecord(cache.apply, cache.serverKey, projectId, cache.ViewOf(projectId), remote.Table(projectId));
      r := cache.Apply(record.event, record.receipt);
    }

    /** One command through the daemon.  Whatever happens the cache still mirrors the log; when the
        daemon reports success the cached prefix holds the committed event; and it does report success
        when the authority answered, its log folds and its pages can be fetched.  The recovery sync is the
        daemon's own here; `SingleFlight` says exactly what a shared one still promises. */
    method Command(command: Contracts.Command, clock: nat, fate: Fate, reachable: nat -> bool)
      returns (r: Result<Event>, ghost reply: Result<Record>)
      requires Wired(command.projectId) && clock >= MICROSECOND
      requires |remote.Table(command.projectId)| + 1 < UINT64_LIMIT
      modifies remote, cache
      ensures Wired(command.projectId)
      ensures r.Ok? ==> var e := r.value;
                        && e.idempotencyKey == command.idempotencyKey
                        && Some(e.intentHash) == IntentHash(command)
                        && 1 <= e.sequence <= |cache.ViewOf(command.projectId).events|
                        && SameEvent(cache.ViewOf(command.projectId).events[e.sequence - 1].event, e)
      ensures r.Ok? ==> reply.Ok? && r.value == reply.value.event
      ensures reply.Ok? && Fold(cache.apply, remote.Table(command.projectId)).Some? ==>
                (forall k: nat :: reachable(k)) ==> r.Ok?
      ensures reply.Err? ==>
                r == Err(reply.code) && cache.ViewOf(command.projectId) == old(cache.ViewOf(command.projectId))
      ensures command.projectId in old(remote.projects) && command.projectId in remote.projects ==>
                MutateStep(remote.rules, remote.serviceKey, old(remote.projects)[command.projectId],
                           remote.projects[command.projectId], Call(command, clock, fate), reply)
    {
      hide Wired, Logged, SameEvent, IntentHash, MutateStep, Fold;
      var answer := Submit(command, clock, fate);
      reply := answer;
      if answer.Err? {
        return Err(answer.code), reply;
      }
      var settled := Settle(command.projectId, answer.value, reachable);
      return if settled.Err? then Err(settled.code) else Ok(answer.value.event), reply;
    }

    /** Send a command to the authority. */
    method Submit(command: Contracts.Command, clock: nat, fate: Fate) returns (reply: Result<Record>)
      requires Wired(command.projectId) && clock >= MICROSECOND
      modifies remote
      ensures Wired(command.projectId)
      ensures |remote.Table(command.projectId)| <= |old(remote.Table(command.projectId))| + 1
      ensures reply.Ok? ==>
                && (exists i :: 0 <= i < |remote.Table(command.projectId)|
                                && Logged(remote.Table(command.projectId)[i], reply.value))
                && reply.value.event.idempotencyKey == command.idempotencyKey
                && Some(reply.value.event.intentHash) == IntentHash(command)
      ensures command.projectId in old(remote.projects) && command.projectId in remote.projects ==>
                MutateStep(remote.rules, remote.serviceKey, old(remote.projects)[command.projectId],
                           remote.projects[command.projectId], Call(command, clock, fate), reply)
    {
      hide Mirrors, MutateStep, Logged, IntentHash, ValidProject;
      var id := command.projectId;
      ghost var before := remote.Table(id);
      reply := remote.Mutate(command, clock, fate);
      if id in remote.projects {
        ReplyIsLogged(remote.rules, remote.serviceKey, old(remote.projects)[id], remote.projects[id],
                      Call(command, clock, fate), reply);
        MirrorOfLongerLog(cache.apply, cache.serverKey, cache.ViewOf(id), before, remote.Table(id));
      }
    }

    /** Apply the reply of the authority to the cache, catching up first when it leaves a gap. */
    method Settle(id: string, record: Record, reachable: nat -> bool) returns (r: Result<()>)
      requires Wired(id) && |remote.Table(id)| < UINT64_LIMIT
      requires exists i :: 0 <= i < |remote.Table(id)| && Logged(remote.Table(id)[i], record)
      modifies cache
      ensures Wired(id)
      ensures r.Ok? ==> 1 <= record.event.sequence <= |cache.ViewOf(id).events|
                        && SameEvent(cache.ViewOf(id).events[record.event.sequence - 1].event, record.event)
      ensures Fold(cache.apply, remote.Table(id)).Some? && (forall k: nat :: reachable(k)) ==> r.Ok?
    {
      hide Wired, Fold, Logged, SameEvent;
      var applied := ApplyReceived(id, record);
      if applied.Err? {
        var synced, _ := SyncProject(id, reachable);
        if synced.Err? {
          return Err(Unavailable);
        }
      }
      HeldEvent(id, record.event);
      return Ok(());
    }

    /** Apply the event of a reply, which is logged: it is held afterwards, or refused. */
    method ApplyReceived(id: string, record: Record) returns (r: Result<()>)
      requires Wired(id) && exists i :: 0 <= i < |remote.Table(id)| && Logged(remote.Table(id)[i], record)
      modifies cache
      ensures Wired(id)
      ensures 1 <= record.event.sequence <= |remote.Table(id)|
      ensures SameEvent(record.event, remote.Table(id)[record.event.sequence - 1].event)
      ensures r.Ok? ==> record.event.sequence <= |cache.ViewOf(id).events|
    {
      hide Mirrors, Fold, ApplyVerdict, ValidProject, Authoritative, SameEvent, Logged;
      LogOf(id);
      ApplyReply(cache.apply, cache.serverKey, id, cache.ViewOf(id), remote.Table(id), record);
      r := cache.Apply(record.event, record.receipt);
    }

    lemma HeldEvent(id: string, e: Event)
      requires Wired(id) && 1 <= e.sequence <= |cache.ViewOf(id).events|
      requires e.sequence <= |remote.Table(id)| && SameEvent(e, remote.Table(id)[e.sequence - 1].event)
      ensures SameEvent(cache.ViewOf(id).events[e.sequence - 1].event, e)
    {
      hide Mirrors, SameEvent;
      CachedReply(cache.apply, cache.serverKey, id, cache.ViewOf(id), remote.Table(id), e);
    }
  }

  lemma CachedSequence(apply: Projector, key: string, v: View, log: seq<Record>)
    requires Mirrors(apply, key, v, log)
    ensures (match v.row case None => 0 case Some(row) => row.sequence) == |v.events| <= |log|
  {
  }

  lemma LogChains(id: string, key: string, log: seq<Record>)
    requires Authoritative(id, key, log)
    ensures ChainHolds(log, 1, Genesis, key)
  {
  }

  /** A mirror as long as the log has folded all of it. */
  lemma WholeFold(apply: Projector, key: string, v: View, log: seq<Record>)
    requires Mirrors(apply, key, v, log) && |v.events| == |log|
    ensures Fold(apply, log).Some?
  {
    MirrorMeaning(apply, key, v, log, 1, 0);
    assert log[..|v.events|] == log;
  }

  /** The next record of the log extends a mirror, unless the log does not fold past it. */
  lemma NextRecord(apply: Projector, key: string, id: string, v: View, log: seq<Record>)
    requires Authoritative(id, key, log) && Mirrors(apply, key, v, log) && |v.events| < |log|
    ensures var r := log[|v.events|];
            var verdict := ApplyVerdict(apply, key, v, r.event, r.receipt);
            && r.event.projectId == id
            && (verdict.Ok? ==> Mirrors(apply, key, verdict.value, log) && v.events <= verdict.value.events
                                && |verdict.value.events| == |v.events| + 1)
            && (verdict.Err? ==> Fold(apply, log).None?)
  {
    hide Mirrors, ApplyVerdict, Fold, ApplyEvent, VerifyEventHash, VerifyReceipt, Matches, ContentOf, LoadProject;
    var r := log[|v.events|];
    LogRow(id, key, log, |v.events|);
    LoggedReceipt(id, key, log, |v.events|);
    CachedSequence(apply, key, v, log);
    LoggedEventVerdict(apply, key, id, v, log, r.event, r.receipt);
    ApplyKeepsMirror(apply, key, id, v, log, r.event, r.receipt);
    UnfoldableRest(apply, key, v, log);
  }

  lemma LoggedReceipt(id: string, key: string, log: seq<Record>, i: nat)
    requires Authoritative(id, key, log) && i < |log|
    ensures Genuine(id, key, log, log[i].receipt) && log[i].event.projectId == id
    ensures Matches(log[i].event, log[i].receipt) && VerifyReceipt(log[i].receipt, key) && VerifyEventHash(log[i].event)
    ensures SameEvent(log[i].event, log[i].event)
  {
    hide ChainHolds;
    LogRow(id, key, log, i);
  }

  /** If the record after a mirror does not apply, the log does not fold. */
  lemma UnfoldableRest(apply: Projector, key: string, v: View, log: seq<Record>)
    requires Mirrors(apply, key, v, log) && |v.events| < |log|
    ensures ApplyEvent(apply, LoadProject(v).state, log[|v.events|].event).None? ==> Fold(apply, log).None?
  {
    hide Mirrors, ApplyEvent, LoadProject, ChainHolds, Window, FindRow;
    var n := |v.events|;
    MirrorMeaning(apply, key, v, log, 1, 0);
    hide Fold;
    FoldSnoc(apply, log[..n], log[n]);
    assert log[..n] + [log[n]] == log[..n + 1];
    if Fold(apply, log).Some? {
      FoldPrefix(apply, log, n + 1);
    }
  }

  /** A reply names an event of the log, with that event's own receipt. */
  lemma ReplyIsLogged(rules: Rules, key: string, p: Project, q: Project, call: Call, reply: Result<Record>)
    requires ValidProject(call.command.projectId, key, p) && call.clock >= MICROSECOND
    requires MutateStep(rules, key, p, q, call, reply)
    ensures p.events <= q.events && |q.events| <= |p.events| + 1
    ensures reply.Ok? ==> exists i :: 0 <= i < |q.events| && Logged(q.events[i], reply.value)
    ensures reply.Ok? ==> reply.value.event.idempotencyKey == call.command.idempotencyKey
                          && Some(reply.value.event.intentHash) == IntentHash(call.command)
  {
    hide VerifyEventHash, ValidProject, ValidRow, Decide, IntentHash, FindKey, Truncate, Stored, Persistable, Load;
    hide SameEvent, RowHolds;
    var c := call.command;
    FoundKey(p.events, c.idempotencyKey);
    if reply.Ok? {
      match FindKey(p.events, c.idempotencyKey) {
        case Some(row) =>
          var i :| 0 <= i < |p.events| && p.events[i] == row;
          SameAsItself(row.event);
          assert Logged(q.events[i], reply.value);
        case None =>
          var now := Truncate(call.clock);
          TruncatedClock(call.clock);
          var plan := Decide(rules, key, p, c, IntentHash(c).value, now).value;
          NewRecordHolds(rules, key, p, c, IntentHash(c).value, now, plan);
          SameStored(rules, plan.record);
          assert Logged(q.events[|p.events|], reply.value);
      }
    }
  }

  lemma SameAsItself(e: Event)
    ensures SameEvent(e, e)
  {
  }

  lemma SameStored(rules: Rules, r: Record)
    ensures SameEvent(r.event, Stored(rules, r).event) ==> SameEvent(Stored(rules, r).event, r.event)
    ensures Stored(rules, r).receipt == r.receipt
    ensures Stored(rules, r).event.idempotencyKey == r.event.idempotencyKey
    ensures Stored(rules, r).event.intentHash == r.event.intentHash
  {
  }

  predicate Logged(row: Record, r: Record) {
    SameEvent(row.event, r.event) && row.receipt == r.receipt
  }

  /** The event of a reply passes the checks of `Apply`, or is refused only as a gap or by the fold. */
  lemma ApplyReply(apply: Projector, key: string, id: string, v: View, log: seq<Record>, r: Record)
    requires Authoritative(id, key, log) && Mirrors(apply, key, v, log)
    requires exists i :: 0 <= i < |log| && Logged(log[i], r)
    ensures var verdict := ApplyVerdict(apply, key, v, r.event, r.receipt);
            && r.event.projectId == id
            && 1 <= r.event.sequence <= |log| && SameEvent(r.event, log[r.event.sequence - 1].event)
            && (verdict.Ok? ==> Mirrors(apply, key, verdict.value, log) && r.event.sequence <= |verdict.value.events|)
  {
    var i :| 0 <= i < |log| && Logged(log[i], r);
    LogRow(id, key, log, i);
    SameLoggedEvent(r.event, log[i].event);
    assert Genuine(id, key, log, r.receipt);
    ApplyKeepsMirror(apply, key, id, v, log, r.event, r.receipt);
  }

  lemma SameLoggedEvent(a: Event, b: Event)
    requires SameEvent(a, b) && VerifyEventHash(b)
    ensures a.sequence == b.sequence && a.projectId == b.projectId
  {
  }

  /** An event of the log inside the cached prefix is cached. */
  lemma CachedReply(apply: Projector, key: string, id: string, v: View, log: seq<Record>, e: Event)
    requires Mirrors(apply, key, v, log)
    requires 1 <= e.sequence <= |v.events| && e.sequence <= |log| && SameEvent(e, log[e.sequence - 1].event)
    ensures SameEvent(v.events[e.sequence - 1].event, e)
  {
    hide ContentOf;
  }
}
